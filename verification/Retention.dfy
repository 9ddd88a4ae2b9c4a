/** Retention of audit documents: per-group policies in days, "*" for every other group, zero for "keep for ever", and
    the cleanup that turns them into one bulk delete per group and one for the rest. */
module Retention {
  import opened Options

  datatype Document = Document(id: nat, group: string, createdAt: int)   // seconds

  datatype Policy = Policy(id: int, group: string, days: int)

  const DEFAULT_DAYS: int := 30
  const SECOND: int := 1_000_000_000                   // nanoseconds
  const DAY: int := 86_400 * SECOND
  const TWO_TO_63: int := 0x8000_0000_0000_0000
  const TWO_TO_64: int := 0x1_0000_0000_0000_0000

  /** The longest retention whose length in nanoseconds fits a signed 64-bit duration. */
  const MAX_DAYS: int := 106_751

  // ---------- policies ----------

  /** Days set for a group by its own row. */
  function OwnDays(policies: seq<Policy>, group: string): Option<int> {
    if policies == [] then None
    else
      var p := policies[|policies| - 1];
      if p.group == group then Some(p.days) else OwnDays(policies[..|policies| - 1], group)
  }

  function GlobalDays(policies: seq<Policy>): int {
    match OwnDays(policies, "*") case Some(days) => days case None => DEFAULT_DAYS
  }

  /** GetRetentionPolicyByGroup: own policy, else the global one, else the default. */
  function EffectiveDays(policies: seq<Policy>, group: string): int {
    match OwnDays(policies, group) case Some(days) => days case None => GlobalDays(policies)
  }

  /** The policy of a document at `now` (nanoseconds): older than its days, zero days meaning for ever. */
  predicate Outlived(policies: seq<Policy>, d: Document, now: int) {
    var days := EffectiveDays(policies, d.group);
    days != 0 && d.createdAt < now / SECOND - days * 86_400
  }

  /** The last policy for the group in the list. */
  predicate IsLastFor(policies: seq<Policy>, group: string, i: int) {
    0 <= i < |policies| && policies[i].group == group && forall j :: i < j < |policies| ==> policies[j].group != group
  }

  lemma {:induction false} OwnDaysIsLast(policies: seq<Policy>, group: string)
    ensures OwnDays(policies, group).None? <==> forall i :: 0 <= i < |policies| ==> policies[i].group != group
    ensures forall i :: IsLastFor(policies, group, i) ==> OwnDays(policies, group) == Some(policies[i].days)
  {
    if policies != [] {
      var init := policies[..|policies| - 1];
      OwnDaysIsLast(init, group);
      if policies[|policies| - 1].group != group {
        forall i | IsLastFor(policies, group, i) ensures OwnDays(policies, group) == Some(policies[i].days) {
          assert IsLastFor(init, group, i);
        }
      }
    }
  }

  /** The days that apply to a group: those of its own policy, else those of the policy "*", else 30; of several policies
      for one group the last counts. */
  lemma DaysThatApply(policies: seq<Policy>, group: string, i: int, j: int)
    ensures IsLastFor(policies, group, i) ==> EffectiveDays(policies, group) == policies[i].days
    ensures (forall k :: 0 <= k < |policies| ==> policies[k].group != group) && IsLastFor(policies, "*", j) ==>
              EffectiveDays(policies, group) == policies[j].days
    ensures (forall k :: 0 <= k < |policies| ==> policies[k].group != group && policies[k].group != "*") ==>
              EffectiveDays(policies, group) == 30
  {
    OwnDaysIsLast(policies, group);
    OwnDaysIsLast(policies, "*");
  }

  // ---------- the cleanup ----------

  /** Wrap-around of 64-bit signed arithmetic. */
  function Wrap(x: int): int {
    (x + TWO_TO_63) % TWO_TO_64 - TWO_TO_63
  }

  /** The cutoff the program computes: the duration is a wrapping product. */
  function Cutoff(now: int, days: int): int {
    (now + Wrap(-days * DAY)) / SECOND
  }

  /** What a cleanup deletes, given which of its delete requests fail. */
  predicate Deleted(policies: seq<Policy>, d: Document, now: int, failing: set<string>, globalFails: bool) {
    var own := if d.group == "*" then None else OwnDays(policies, d.group);
    match own
    case Some(days) => days != 0 && d.group !in failing && d.createdAt < Cutoff(now, days)
    case None => GlobalDays(policies) > 0 && !globalFails && d.createdAt < Cutoff(now, GlobalDays(policies))
  }

  function Own(policies: seq<Policy>): (m: map<string, int>) {
    if policies == [] then map[]
    else
      var rest, p := Own(policies[..|policies| - 1]), policies[|policies| - 1];
      if p.group == "*" then rest else rest[p.group := p.days]
  }

  lemma {:induction false} OwnIsOwnDays(policies: seq<Policy>, group: string)
    ensures if group != "*" && group in Own(policies) then OwnDays(policies, group) == Some(Own(policies)[group])
            else group == "*" || OwnDays(policies, group) == None
    ensures "*" !in Own(policies)
  {
    if policies != [] { OwnIsOwnDays(policies[..|policies| - 1], group); }
  }

  method BuildMaps(policies: seq<Policy>) returns (own: map<string, int>, global: int)
    ensures own == Own(policies) && global == GlobalDays(policies)
  {
    own, global := map[], DEFAULT_DAYS;
    for i := 0 to |policies|
      invariant own == Own(policies[..i]) && global == GlobalDays(policies[..i])
    {
      assert policies[..i + 1][..i] == policies[..i];
      if policies[i].group == "*" {
        global := policies[i].days;
      } else {
        own := own[policies[i].group := policies[i].days];
      }
    }
    assert policies[..|policies|] == policies;
  }

  /** deleteAuditLogsBefore as a set delete. */
  method DeleteGroup(docs: set<Document>, group: string, cutoff: int) returns (left: set<Document>, deleted: nat)
    ensures left == set d | d in docs && !(d.group == group && d.createdAt < cutoff)
    ensures deleted == |docs - left|
  {
    left := set d | d in docs && !(d.group == group && d.createdAt < cutoff);
    deleted := |docs - left|;
  }

  /** deleteAuditLogsGlobal as a set delete. */
  method DeleteRest(docs: set<Document>, excluded: set<string>, cutoff: int) returns (left: set<Document>, deleted: nat)
    ensures left == set d | d in docs && !(d.group !in excluded && d.createdAt < cutoff)
    ensures deleted == |docs - left|
  {
    left := set d | d in docs && !(d.group !in excluded && d.createdAt < cutoff);
    deleted := |docs - left|;
  }

  lemma CountsAdd(docs: set<Document>, mid: set<Document>, left: set<Document>)
    requires left <= mid <= docs
    ensures |docs - left| == |docs - mid| + |mid - left|
  {
    assert docs - left == (docs - mid) + (mid - left);
  }

  predicate DeletedByGroup(own: map<string, int>, d: Document, now: int, failing: set<string>) {
    d.group in own && own[d.group] != 0 && d.group !in failing && d.createdAt < Cutoff(now, own[d.group])
  }

  predicate DeletedByRest(own: map<string, int>, global: int, d: Document, now: int, globalFails: bool) {
    d.group !in own && global > 0 && !globalFails && d.createdAt < Cutoff(now, global)
  }

  lemma TwoPhases(policies: seq<Policy>, d: Document, now: int, failing: set<string>, globalFails: bool)
    ensures Deleted(policies, d, now, failing, globalFails) <==>
            DeletedByGroup(Own(policies), d, now, failing)
            || DeletedByRest(Own(policies), GlobalDays(policies), d, now, globalFails)
  {
    OwnIsOwnDays(policies, d.group);
  }

  method CleanGroups(own: map<string, int>, docs: set<Document>, now: int, failing: set<string>)
    returns (left: set<Document>, total: nat)
    ensures left == set d | d in docs && !DeletedByGroup(own, d, now, failing)
    ensures total == |docs - left|
  {
    left, total := docs, 0;
    var rest := own.Keys;
    while rest != {}
      invariant rest <= own.Keys && left <= docs && total == |docs - left|
      invariant forall d :: d in docs ==> (d in left <==> !(d.group !in rest && DeletedByGroup(own, d, now, failing)))
      decreases |rest|
    {
      var group :| group in rest;
      rest := rest - {group};
      var days := own[group];
      if days != 0 && group !in failing {
        var before := left;
        var deleted;
        left, deleted := DeleteGroup(left, group, Cutoff(now, days));
        CountsAdd(docs, before, left);
        total := total + deleted;
      }
    }
  }

  /** runRetentionCleanup: what remains, and how many documents went, each counted once, whatever order the groups
      are visited in. */
  method RunCleanup(policies: seq<Policy>, docs: set<Document>, now: int, failing: set<string>, globalFails: bool)
    returns (left: set<Document>, total: nat)
    ensures left == set d | d in docs && !Deleted(policies, d, now, failing, globalFails)
    ensures total == |docs - left|
  {
    var own, global := BuildMaps(policies);
    forall d: Document
      ensures Deleted(policies, d, now, failing, globalFails) <==>
              DeletedByGroup(own, d, now, failing) || DeletedByRest(own, global, d, now, globalFails)
    {
      TwoPhases(policies, d, now, failing, globalFails);
    }
    if global == 0 && |own| == 0 {
      return docs, 0;
    }
    left, total := CleanGroups(own, docs, now, failing);
    if global > 0 && !globalFails {
      var before := left;
      var deleted;
      left, deleted := DeleteRest(left, own.Keys, Cutoff(now, global));
      CountsAdd(docs, before, left);
      total := total + deleted;
    }
  }

  // ---------- deleting what the policies say ----------

  lemma WrapInRange(x: int)
    ensures -TWO_TO_63 <= x < TWO_TO_63 ==> Wrap(x) == x
    ensures x < -TWO_TO_63 ==> Wrap(x) >= x + TWO_TO_64
  {
  }

  /** The computed cutoff is that many days ago exactly when the days fit the duration. */
  lemma CutoffIsExactIff(now: int, days: int)
    requires days >= 0
    ensures Cutoff(now, days) == now / SECOND - days * 86_400 <==> days <= MAX_DAYS
  {
    WrapInRange(-days * DAY);
    assert -days * DAY == (-days * 86_400) * SECOND;
    var exact := (now + (-days * 86_400) * SECOND) / SECOND;
    assert exact == now / SECOND - days * 86_400;
    if days > MAX_DAYS {
      assert Wrap(-days * DAY) >= -days * DAY + TWO_TO_64;
      assert Cutoff(now, days) > exact;
    }
  }

  ghost predicate NonNegativeDays(policies: seq<Policy>) {
    forall i :: 0 <= i < |policies| ==> policies[i].days >= 0
  }

  ghost predicate DaysFit(policies: seq<Policy>) {
    forall g :: OwnDays(policies, g).Some? ==> OwnDays(policies, g).value <= MAX_DAYS
  }

  lemma {:induction false} DaysAreNonNegative(policies: seq<Policy>, group: string)
    requires NonNegativeDays(policies)
    ensures EffectiveDays(policies, group) >= 0
    ensures OwnDays(policies, group).Some? ==> OwnDays(policies, group).value >= 0
    ensures GlobalDays(policies) >= 0
  {
    if policies != [] { DaysAreNonNegative(policies[..|policies| - 1], group); }
  }

  /** With days that fit, a cleanup without failures deletes exactly the documents that have outlived the effective
      policy of their group. */
  lemma CleanupFollowsPolicies(policies: seq<Policy>, d: Document, now: int)
    requires NonNegativeDays(policies) && DaysFit(policies)
    ensures Deleted(policies, d, now, {}, false) <==> Outlived(policies, d, now)
  {
    DaysAreNonNegative(policies, d.group);
    CutoffIsExactIff(now, EffectiveDays(policies, d.group));
    CutoffIsExactIff(now, GlobalDays(policies));
  }

  /** Failures only spare documents. */
  lemma FailuresSpare(policies: seq<Policy>, d: Document, now: int, failing: set<string>, globalFails: bool)
    ensures Deleted(policies, d, now, failing, globalFails) ==> Deleted(policies, d, now, {}, false)
  {
  }

  /** A document that can exist at `now`: created since 1970 and not in the future. */
  predicate Real(d: Document, now: int) {
    0 <= d.createdAt <= now / SECOND
  }

  /** The clock: nanoseconds since 1970 in 64 bits. */
  predicate ClockFits(now: int) {
    0 <= now < TWO_TO_63
  }

  /** The days fit the duration, or the wrapped cutoff lies before all documents. */
  predicate Harmless(now: int, days: int) {
    days <= MAX_DAYS || Cutoff(now, days) <= 0
  }

  /** A retention that does not fit reaches back before 1970, so nothing has outlived it. */
  lemma LongRetentionKeeps(now: int, days: int)
    requires ClockFits(now) && days > MAX_DAYS
    ensures now / SECOND - days * 86_400 < 0
  {
    assert days * 86_400 >= (MAX_DAYS + 1) * 86_400;
  }

  ghost predicate AllHarmless(policies: seq<Policy>, now: int) {
    forall g :: OwnDays(policies, g).Some? ==> Harmless(now, OwnDays(policies, g).value)
  }

  /** A document is deleted exactly when it has outlived the policy of its group. */
  predicate Follows(policies: seq<Policy>, d: Document, now: int) {
    Deleted(policies, d, now, {}, false) <==> Outlived(policies, d, now)
  }

  lemma HarmlessIsFollowed(policies: seq<Policy>, d: Document, now: int)
    requires NonNegativeDays(policies) && ClockFits(now) && Real(d, now) && AllHarmless(policies, now)
    ensures Follows(policies, d, now)
  {
    var days := EffectiveDays(policies, d.group);
    DaysAreNonNegative(policies, d.group);
    CutoffIsExactIff(now, days);
    assert Harmless(now, days);
    if days > MAX_DAYS { LongRetentionKeeps(now, days); }
  }

  lemma HarmfulIsNot(policies: seq<Policy>, g: string, now: int)
    requires ClockFits(now) && OwnDays(policies, g).Some? && !Harmless(now, OwnDays(policies, g).value)
    ensures Real(Document(0, g, 0), now) && !Follows(policies, Document(0, g, 0), now)
  {
    LongRetentionKeeps(now, OwnDays(policies, g).value);
  }

  /** On the documents that can exist the cleanup follows the policies if and only if every retention fits the duration
      or its wrapped cutoff is not positive. */
  lemma CleanupFollowsPoliciesIff(policies: seq<Policy>, now: int)
    requires NonNegativeDays(policies) && ClockFits(now)
    ensures (forall d | Real(d, now) :: Follows(policies, d, now)) <==> AllHarmless(policies, now)
  {
    if AllHarmless(policies, now) {
      forall d | Real(d, now) ensures Follows(policies, d, now) { HarmlessIsFollowed(policies, d, now); }
    } else {
      var g :| OwnDays(policies, g).Some? && !Harmless(now, OwnDays(policies, g).value);
      HarmfulIsNot(policies, g, now);
    }
  }

  /** From 106752 to 213503 days the wrapped cutoff lies in the future: every document of the group is deleted, the
      newest included, and none of them should be. */
  lemma LongRetentionDeletesAll(policies: seq<Policy>, d: Document, now: int)
    requires ClockFits(now) && Real(d, now) && d.group != "*"
    requires OwnDays(policies, d.group).Some? && MAX_DAYS < OwnDays(policies, d.group).value <= 2 * MAX_DAYS + 1
    ensures Deleted(policies, d, now, {}, false) && !Outlived(policies, d, now)
  {
    var days := OwnDays(policies, d.group).value;
    LongRetentionKeeps(now, days);
    WrappedAhead(days);
    assert (now + SECOND) / SECOND == now / SECOND + 1;
  }

  lemma WrappedAhead(days: int)
    requires MAX_DAYS < days <= 2 * MAX_DAYS + 1
    ensures Wrap(-days * DAY) == TWO_TO_64 - days * DAY >= SECOND
  {
    assert (MAX_DAYS + 1) * DAY <= days * DAY <= (2 * MAX_DAYS + 1) * DAY;
    var x := -days * DAY + TWO_TO_63 + TWO_TO_64;
    assert 0 <= x < TWO_TO_64;
    assert (-days * DAY + TWO_TO_63) % TWO_TO_64 == x;
  }
}
