/** What becomes of orders in whole runs: that a successful order is granted what was paid, for how much, and runs that
    show what is not promised. */
module OrderOutcomes {
  import opened Options
  import opened OrderLocks
  import TopUpAmounts

  // ---------- no credit is lost without a failing write ----------

  ghost predicate HasGrant(ledger: seq<Grant>, t: Trade) {
    exists k :: 0 <= k < |ledger| && ledger[k].trade == t
  }

  ghost predicate AboutToCredit(threads: seq<Thread>, t: Trade) {
    exists i :: 0 <= i < |threads| && threads[i].trade == t && threads[i].pc.Credit?
  }

  /** A successful order has been granted what was paid for, or a handler is about to credit it. */
  ghost predicate Accounted(s: State, t: Trade) {
    t in s.db.orders && s.db.orders[t].status.Success? ==> HasGrant(s.db.ledger, t) || AboutToCredit(s.threads, t)
  }

  /** EpayNotify has marked its order successful, and crediting the user fails. */
  predicate CreditFails(rate: real, th: Thread, call: Call) {
    th.pc.Credit? && !(call.Fine? && TopUpAmounts.EpayCredit(th.pc.o.units, rate) >= 0)
  }

  lemma WorkGrants(db: Database, th: Thread, call: Call, t: Trade)
    requires Working(th.pc) && CopyInv(db, th)
    ensures var (db', pc) := Work(db, th, call);
            && (HasGrant(db.ledger, t) ==> HasGrant(db'.ledger, t))
            && (t != th.trade ==>
                 (t in db'.orders <==> t in db.orders) && (t in db.orders ==> db'.orders[t] == db.orders[t]))
            && (th.pc.Credit? && !CreditFails(db.rate, th, call) ==> HasGrant(db'.ledger, th.trade))
            && (CreditFails(db.rate, th, call) ==> db' == db && pc.Exit?)
            && (!th.pc.Credit? && th.trade in db'.orders && db'.orders[th.trade].status.Success? ==>
                 HasGrant(db'.ledger, th.trade) || pc.Credit? ||
                 (th.trade in db.orders && db.orders[th.trade].status.Success?))
  {
    var ledger, ledger' := db.ledger, Work(db, th, call).0.ledger;
    assert ledger' == ledger || (|ledger'| == |ledger| + 1 && ledger'[..|ledger|] == ledger
                                 && ledger'[|ledger|].trade == th.trade);
    if HasGrant(ledger, t) {
      var k :| 0 <= k < |ledger| && ledger[k].trade == t;
      assert ledger'[k].trade == t;
    }
  }

  lemma OthersStillCredit(s: State, i: nat, call: Call, t: Trade)
    requires Enabled(s, i) && AboutToCredit(s.threads, t)
    ensures AboutToCredit(RunThread(s, i, call).threads, t) || (s.threads[i].trade == t && s.threads[i].pc.Credit?)
  {
    ThreadStepEffect(s, i, call);
    var j :| 0 <= j < |s.threads| && s.threads[j].trade == t && s.threads[j].pc.Credit?;
    if j != i {
      assert RunThread(s, i, call).threads[j] == s.threads[j];
    }
  }

  lemma ThreadStepAccounts(s: State, i: nat, call: Call, t: Trade)
    requires Inv(s) && Enabled(s, i) && Accounted(s, t)
    requires s.threads[i].trade == t && CreditFails(s.db.rate, s.threads[i], call) ==> HasGrant(s.db.ledger, t)
    ensures Accounted(RunThread(s, i, call), t)
  {
    var th, s' := s.threads[i], RunThread(s, i, call);
    ThreadStepEffect(s, i, call);
    if AboutToCredit(s.threads, t) { OthersStillCredit(s, i, call, t); }
    if Working(th.pc) {
      WorkGrants(s.db, th, call, t);
      if s'.threads[i].pc.Credit? { assert AboutToCredit(s'.threads, th.trade); }
    }
  }

  /** If crediting fails, nobody else is about to credit that order. */
  lemma FailedCreditIsLost(s: State, i: nat, call: Call)
    requires Inv(s) && Enabled(s, i)
    requires CreditFails(s.db.rate, s.threads[i], call) && !HasGrant(s.db.ledger, s.threads[i].trade)
    ensures !Accounted(RunThread(s, i, call), s.threads[i].trade)
  {
    var t, s' := s.threads[i].trade, RunThread(s, i, call);
    ThreadStepEffect(s, i, call);
    WorkGrants(s.db, s.threads[i], call, t);
    assert CopyInv(s.db, s.threads[i]);
    if AboutToCredit(s'.threads, t) {
      var j :| 0 <= j < |s'.threads| && s'.threads[j].trade == t && s'.threads[j].pc.Credit?;
      SectionsExclude(s, i, j);
    }
  }

  /** A step leaves a successful order without its grant if and only if it is the crediting call of EpayNotify, for an
      order not granted otherwise, and that call fails: the order is marked before it is credited, in two writes. */
  lemma CreditLostIff(s: State, e: Event, t: Trade)
    requires Inv(s) && Accounted(s, t)
    ensures !Accounted(Step(s, e), t) <==>
              && e.Run? && Enabled(s, e.i) && s.threads[e.i].trade == t
              && CreditFails(s.db.rate, s.threads[e.i], e.call) && !HasGrant(s.db.ledger, t)
  {
    if e.Run? && Enabled(s, e.i) {
      if s.threads[e.i].trade == t && CreditFails(s.db.rate, s.threads[e.i], e.call) && !HasGrant(s.db.ledger, t) {
        FailedCreditIsLost(s, e.i, e.call);
      } else {
        ThreadStepAccounts(s, e.i, e.call, t);
      }
    }
  }

  /** No write fails, no order is for a negative amount, and the rate is not set below zero. */
  predicate Smooth(es: seq<Event>) {
    forall k :: 0 <= k < |es| ==>
      && (es[k].Run? ==> es[k].call.Fine?) && (es[k].PlaceOrder? ==> es[k].o.units >= 0)
      && (es[k].SetRate? ==> es[k].rate >= 0.0)
  }

  predicate UnitsInv(db: Database, th: Thread) {
    && (th.pc.Mark? || th.pc.Credit? || th.pc.WriteExpire? ==> th.pc.o.units >= 0)
    && forall t :: t in db.orders ==> db.orders[t].units >= 0
  }

  lemma StepKeepsUnits(s: State, e: Event)
    requires forall i :: 0 <= i < |s.threads| ==> UnitsInv(s.db, s.threads[i])
    requires e.PlaceOrder? ==> e.o.units >= 0
    ensures forall i :: 0 <= i < |Step(s, e).threads| ==> UnitsInv(Step(s, e).db, Step(s, e).threads[i])
  {
    if e.Run? && Enabled(s, e.i) {
      ThreadStepEffect(s, e.i, e.call);
      assert UnitsInv(s.db, s.threads[e.i]);
    }
  }

  /** In every interleaving in which no write fails, a successful order has its grant or is about to get it; with
      CreditedAtMostOnce, a settled top-up is credited exactly once. */
  lemma {:induction false} SuccessIsGranted(s: State, es: seq<Event>, t: Trade)
    requires Initial(s) && s.db.rate >= 0.0 && Smooth(es)
    ensures Accounted(Exec(s, es), t) && Exec(s, es).db.rate >= 0.0
    ensures forall i :: 0 <= i < |Exec(s, es).threads| ==> UnitsInv(Exec(s, es).db, Exec(s, es).threads[i])
  {
    if es != [] {
      var z, e := Exec(s, es[..|es| - 1]), es[|es| - 1];
      SuccessIsGranted(s, es[..|es| - 1], t);
      RunsKeepInv(s, es[..|es| - 1]);
      StepKeepsUnits(z, e);
      CreditLostIff(z, e, t);
      if e.Run? && Enabled(z, e.i) {
        assert UnitsInv(z.db, z.threads[e.i]);
        ThreadStepEffect(z, e.i, e.call);
        if z.threads[e.i].pc.Credit? { TopUpAmounts.CreditIsNonNegative(z.threads[e.i].pc.o.units, z.db.rate); }
      }
    }
  }

  // ---------- amounts ----------

  /** A step adds at most one grant, for the stepping handler's own order, and a quota grant is what the handler's
      route gives for the order as it is stored at that moment. */
  lemma GrantsAreForTheStoredOrder(s: State, e: Event)
    requires Inv(s)
    ensures var ledger, ledger' := s.db.ledger, Step(s, e).db.ledger;
            || ledger' == ledger
            || (&& e.Run? && Enabled(s, e.i) && |ledger'| == |ledger| + 1 && ledger'[..|ledger|] == ledger
                && ledger'[|ledger|].trade == s.threads[e.i].trade
                && (ledger'[|ledger|].Quota? ==>
                      && s.threads[e.i].trade in s.db.orders
                      && ledger'[|ledger|].amount ==
                         QuotaFor(s.db.rate, s.threads[e.i].kind, s.db.orders[s.threads[e.i].trade])))
  {
    if e.Run? && Enabled(s, e.i) {
      ThreadStepEffect(s, e.i, e.call);
      if Working(s.threads[e.i].pc) {
        assert KindInv(s.threads[e.i]) && CopyInv(s.db, s.threads[e.i]);
        WorkGrantsStored(s.db, s.threads[e.i], e.call);
      }
    }
  }

  lemma WorkGrantsStored(db: Database, th: Thread, call: Call)
    requires Working(th.pc) && CopyInv(db, th) && KindInv(th)
    ensures var ledger, ledger' := db.ledger, Work(db, th, call).0.ledger;
            || ledger' == ledger
            || (exists g: Grant :: ledger' == ledger + [g] && g.trade == th.trade &&
                  (g.Quota? ==> th.trade in db.orders && g.amount == QuotaFor(db.rate, th.kind, db.orders[th.trade])))
  {
    var ledger, ledger' := db.ledger, Work(db, th, call).0.ledger;
    if ledger' != ledger {
      assert ledger' == ledger + [ledger'[|ledger|]];
    }
  }

  /** What completing an order by hand credits, against the webhook that would have completed it: the same for Epay
      orders; the whole part for Stripe orders; and for Creem orders, whose amount already is quota, the same if and
      only if the rate is not below one and what it would add stays below one. */
  lemma ManualCompletionAmounts(rate: real, o: Order)
    requires rate >= 0.0
    ensures !o.viaStripe ==> QuotaFor(rate, AdminComplete, o) == QuotaFor(rate, EpayNotify, o)
    ensures o.viaStripe && o.money >= 0.0 ==>
              QuotaFor(rate, AdminComplete, o) <= QuotaFor(rate, StripeComplete, o) < QuotaFor(rate, AdminComplete, o) + 1.0
    ensures !o.viaStripe ==>
              (QuotaFor(rate, AdminComplete, o) == QuotaFor(rate, CreemComplete, o) <==>
                 0.0 <= TopUpAmounts.Magnitude(o.units) as real * (rate - 1.0) < 1.0)
  {
    if o.viaStripe {
      if o.money >= 0.0 {
        TopUpAmounts.ProductIsNonNegative(o.money, rate);
        TopUpAmounts.IntPartBounds(o.money * rate);
      }
    } else {
      TopUpAmounts.CreditIsUnitsIff(o.units, rate);
    }
  }

  // ---------- what a handler does, left to itself ----------

  /** The database when a handler has gone through its section alone, with every call succeeding. */
  function SectionRun(db: Database, th: Thread): Database
    decreases Rank(th.pc)
  {
    if !Working(th.pc) then db
    else
      WorkLowersRank(db, th, Fine);
      var (after, pc) := Work(db, th, Fine);
      SectionRun(after, th.(pc := pc))
  }

  lemma OneCall(db: Database, th: Thread)
    requires Working(th.pc)
    ensures var (after, pc) := Work(db, th, Fine);
            SectionRun(db, th) == if pc.Exit? then after else SectionRun(after, th.(pc := pc))
  {
  }

  function Alone(db: Database, t: Trade, kind: Handler): Database {
    SectionRun(db, Thread(t, kind, Enter))
  }

  /** The number with its fraction cut off. */
  predicate IsWholePart(a: real, x: real) {
    a == a.Floor as real && (if x >= 0.0 then a <= x < a + 1.0 else a - 1.0 < x <= a)
  }

  /** What a route credits for an order: the units as they are (Creem), the money times the rate (Stripe), or the whole
      part of the product (Epay, and completing by hand). */
  predicate IsAmount(kind: Handler, rate: real, o: Order, a: real) {
    match kind
    case CreemComplete => a == o.units as real
    case StripeComplete => a == o.money * rate
    case EpayNotify => IsWholePart(a, o.units as real * rate)
    case AdminComplete => IsWholePart(a, if o.viaStripe then o.money * rate else o.units as real * rate)
    case _ => false
  }

  predicate SettlesTopUps(kind: Handler) {
    kind.EpayNotify? || kind.StripeComplete? || kind.CreemComplete? || kind.AdminComplete?
  }

  lemma WholePartIsUnique(a: real, b: real, x: real)
    requires IsWholePart(a, x) && IsWholePart(b, x)
    ensures a == b
  {
    NoIntegerBetween(a.Floor, b.Floor);
    NoIntegerBetween(b.Floor, a.Floor);
  }

  lemma NoIntegerBetween(m: int, n: int)
    ensures m < n ==> m as real + 1.0 <= n as real
  {
    if m < n { assert (m + 1) as real <= n as real; }
  }

  lemma IntPartIsWhole(x: real)
    ensures IsWholePart(TopUpAmounts.IntPart(x) as real, x)
  {
    if x >= 0.0 {
      assert (x.Floor as real).Floor == x.Floor;
    } else {
      var n := -((-x).Floor);
      assert n as real == -((-x).Floor as real);
      assert (n as real).Floor == n;
    }
  }

  lemma WholePartIsIntPart(x: real, a: real)
    requires IsWholePart(a, x)
    ensures TopUpAmounts.IntPart(x) as real == a
  {
    IntPartIsWhole(x);
    WholePartIsUnique(TopUpAmounts.IntPart(x) as real, a, x);
  }

  lemma CreditIsWhole(units: int, rate: real, a: real)
    requires IsWholePart(a, units as real * rate)
    ensures TopUpAmounts.EpayCredit(units, rate) as real == a
  {
    var x := units as real * rate;
    assert TopUpAmounts.EpayCredit(units, rate) == TopUpAmounts.IntPart(x);
    WholePartIsIntPart(x, a);
  }

  lemma EpayAmount(rate: real, o: Order, a: real)
    requires IsWholePart(a, o.units as real * rate)
    ensures QuotaFor(rate, EpayNotify, o) == a
    ensures !o.viaStripe ==> QuotaFor(rate, AdminComplete, o) == a
  {
    CreditIsWhole(o.units, rate, a);
  }

  lemma MoneyIsWhole(money: real, rate: real, a: real)
    requires IsWholePart(a, money * rate)
    ensures TopUpAmounts.MoneyCredit(money, rate) as real == a
  {
    var x := money * rate;
    assert TopUpAmounts.MoneyCredit(money, rate) == TopUpAmounts.IntPart(x);
    WholePartIsIntPart(x, a);
  }

  lemma StripeAmountByHand(rate: real, o: Order, a: real)
    requires IsWholePart(a, o.money * rate) && o.viaStripe
    ensures QuotaFor(rate, AdminComplete, o) == a
  {
    MoneyIsWhole(o.money, rate, a);
  }

  lemma QuotaIsAmount(kind: Handler, rate: real, o: Order, a: real)
    requires SettlesTopUps(kind) && IsAmount(kind, rate, o, a)
    ensures QuotaFor(rate, kind, o) == a
  {
    if kind.EpayNotify? || (kind.AdminComplete? && !o.viaStripe) {
      EpayAmount(rate, o, a);
    } else if kind.AdminComplete? {
      StripeAmountByHand(rate, o, a);
    }
  }

  /** A handler that settles top-ups marks a pending order successful and adds its amount to the ledger, once, and does
      nothing else; an order that is missing or not pending it leaves alone.  By hand only a positive amount is settled,
      and Epay marks but does not credit a negative one. */
  lemma TopUpIsSettled(db: Database, t: Trade, kind: Handler, a: real)
    requires SettlesTopUps(kind) && (kind.StripeComplete? || kind.CreemComplete? ==> t !in db.subs)
    requires t in db.orders ==> IsAmount(kind, db.rate, db.orders[t], a)
    ensures Alone(db, t, kind) ==
            if t !in db.orders || !db.orders[t].status.Pending? || (kind.AdminComplete? && a <= 0.0) then db
            else db.(orders := db.orders[t := db.orders[t].(status := Success)],
                     ledger := if kind.EpayNotify? && a < 0.0 then db.ledger else db.ledger + [Quota(t, a)])
  {
    if t in db.orders { QuotaIsAmount(kind, db.rate, db.orders[t], a); }
    if kind.EpayNotify? {
      EpayAlone(db, t);
    } else if kind.AdminComplete? {
      OneCall(db, Thread(t, kind, Enter));
    } else {
      SettleAlone(db, t, kind);
    }
  }

  lemma SettleAlone(db: Database, t: Trade, kind: Handler)
    requires (kind.StripeComplete? || kind.CreemComplete?) && t !in db.subs
    ensures Alone(db, t, kind) == SettleInOneTransaction(db, t, kind, Fine)
  {
    OneCall(db, Thread(t, kind, Enter));
    OneCall(db, Thread(t, kind, Settle));
  }

  lemma EpayAlone(db: Database, t: Trade)
    ensures Alone(db, t, EpayNotify) ==
            if t !in db.orders || !db.orders[t].status.Pending? then db
            else
              var marked := db.(orders := db.orders[t := db.orders[t].(status := Success)]);
              if TopUpAmounts.EpayCredit(db.orders[t].units, db.rate) < 0 then marked
              else marked.(ledger := db.ledger + [Quota(t, QuotaFor(db.rate, EpayNotify, db.orders[t]))])
  {
    OneCall(db, Thread(t, EpayNotify, Enter));
    if t in db.orders && db.orders[t].status.Pending? {
      var o := db.orders[t];
      OneCall(db, Thread(t, EpayNotify, Mark(o)));
      OneCall(db.(orders := db.orders[t := o.(status := Success)]), Thread(t, EpayNotify, Credit(o)));
    }
  }

  /** A handler for subscriptions completes a pending one, grants it once, and leaves a successful top-up row of its
      number and price; one that is missing (for Epay) or not pending it leaves alone. */
  lemma SubscriptionIsCompleted(db: Database, t: Trade, kind: Handler)
    requires kind.EpaySubscription? || ((kind.StripeComplete? || kind.CreemComplete?) && t in db.subs)
    ensures var r := Alone(db, t, kind);
            if t !in db.subs || !db.subs[t].status.Pending? then r == db
            else
              && r.ledger == db.ledger + [Subscription(t)] && r.rate == db.rate
              && r.subs == db.subs[t := SubscriptionOrder(db.subs[t].money, Success)]
              && t in r.orders && r.orders == db.orders[t := r.orders[t]]
              && r.orders[t].status == Success && r.orders[t].money == db.subs[t].money
              && (t in db.orders ==> r.orders[t].units == db.orders[t].units)
  {
    OneCall(db, Thread(t, kind, Enter));
  }

  /** An expiry webhook expires a pending subscription; without one of that number it marks the top-up order expired,
      whatever its status was. */
  lemma ExpiryIsRecorded(db: Database, t: Trade)
    ensures Alone(db, t, StripeExpire) ==
            if t in db.subs then
              if db.subs[t].status.Pending? then db.(subs := db.subs[t := SubscriptionOrder(db.subs[t].money, Expired)])
              else db
            else if t in db.orders then db.(orders := db.orders[t := db.orders[t].(status := Expired)])
            else db
  {
    OneCall(db, Thread(t, StripeExpire, Enter));
    if t !in db.subs {
      OneCall(db, Thread(t, StripeExpire, ReadExpire));
      if t in db.orders { OneCall(db, Thread(t, StripeExpire, WriteExpire(db.orders[t]))); }
    }
  }

  /** A call that fails changes nothing, and a failing read is taken for missing rows. */
  lemma FailedCallChangesNothing(db: Database, th: Thread, call: Call)
    requires Working(th.pc) && !call.Fine?
    ensures Work(db, th, call).0 == db
    ensures call.ReadFails? && (th.pc.Enter? || th.pc.ReadExpire?) ==>
              Work(db, th, call).1 == Work(db.(orders := map[], subs := map[]), th, Fine).1
    ensures call.WriteFails? && (th.pc.Settle? || th.pc.Mark? || th.pc.Credit? || th.pc.WriteExpire?) ==>
              Work(db, th, call).1.Exit?
  {
  }

  // ---------- in every run, a handler that is done has settled ----------

  /** The handler has not yet come to the call that settles. */
  predicate StillToSettle(pc: Pc) {
    || pc.Start? || pc.WantCreate? || pc.Recheck? || pc.Publish? || pc.Acquire?
    || pc.Leave? || pc.Enter? || pc.Settle? || pc.Mark?
  }

  /** Worth completing by hand at every rate from one upwards. */
  predicate WorthCompleting(o: Order) {
    if o.viaStripe then o.money >= 1.0 else o.units >= 1
  }

  /** No call fails, and no subscription takes the number. */
  predicate Undisturbed(es: seq<Event>, t: Trade, kind: Handler) {
    forall k :: 0 <= k < |es| ==>
      && (es[k].Run? ==> es[k].call.Fine?) && (es[k].PlaceSubscription? ==> es[k].t != t)
      && (kind.AdminComplete? && es[k].SetRate? ==> es[k].rate >= 1.0)
  }

  ghost predicate Settling(s: State, i: nat, o: Order) {
    && i < |s.threads| && SettlesTopUps(s.threads[i].kind) && s.threads[i].trade !in s.db.subs
    && (s.threads[i].kind.AdminComplete? ==> s.db.rate >= 1.0 && WorthCompleting(o))
    && s.threads[i].trade in s.db.orders
    && (s.db.orders[s.threads[i].trade].status.Pending? ==>
          s.db.orders[s.threads[i].trade] == o && StillToSettle(s.threads[i].pc))
  }

  lemma WorthCompletingPays(rate: real, o: Order)
    requires rate >= 1.0 && WorthCompleting(o)
    ensures QuotaFor(rate, AdminComplete, o) > 0.0
  {
    var x := if o.viaStripe then o.money else o.units as real;
    assert x * rate >= x * 1.0 && x >= 1.0;
    IntPartIsWhole(x * rate);
  }

  /** While an order stays pending, no call changes it. */
  lemma PendingIsUntouched(db: Database, th: Thread, t: Trade)
    requires Working(th.pc) && t in db.orders && (th.pc.Mark? || th.pc.WriteExpire? || th.pc.Credit? ==> CopyInv(db, th))
    ensures var after := Work(db, th, Fine).0;
            && t in after.orders && (after.orders[t].status.Pending? ==> after.orders[t] == db.orders[t])
            && after.subs.Keys == db.subs.Keys && after.rate == db.rate
  {
  }

  lemma OwnCallSettles(db: Database, th: Thread, o: Order)
    requires Working(th.pc) && SettlesTopUps(th.kind) && StillToSettle(th.pc) && KindInv(th)
    requires th.trade in db.orders && db.orders[th.trade] == o && o.status.Pending? && th.trade !in db.subs
    requires th.pc.Settle? ==> th.kind.StripeComplete? || th.kind.CreemComplete?
    requires th.kind.AdminComplete? ==> db.rate >= 1.0 && WorthCompleting(o)
    ensures var (after, pc) := Work(db, th, Fine);
            after.orders[th.trade].status.Pending? ==> StillToSettle(pc)
  {
    if th.kind.AdminComplete? { WorthCompletingPays(db.rate, o); }
  }

  /** Only the Stripe and Creem webhooks settle in a second call. */
  ghost predicate SettleKinds(s: State) {
    forall i :: 0 <= i < |s.threads| && s.threads[i].pc.Settle? ==>
      s.threads[i].kind.StripeComplete? || s.threads[i].kind.CreemComplete?
  }

  lemma StepKeepsSettleKinds(s: State, e: Event)
    requires SettleKinds(s)
    ensures SettleKinds(Step(s, e))
  {
    if e.Run? && Enabled(s, e.i) {
      ThreadStepEffect(s, e.i, e.call);
    }
  }

  lemma StepKeepsSettling(s: State, e: Event, i: nat, o: Order)
    requires Inv(s) && SettleKinds(s) && Settling(s, i, o) && Undisturbed([e], s.threads[i].trade, s.threads[i].kind)
    ensures Settling(Step(s, e), i, o) && Step(s, e).threads[i].trade == s.threads[i].trade
    ensures Step(s, e).threads[i].kind == s.threads[i].kind
  {
    assert [e][0] == e;
    if e.Run? && Enabled(s, e.i) {
      var th, t := s.threads[e.i], s.threads[i].trade;
      ThreadStepEffect(s, e.i, e.call);
      assert CopyInv(s.db, th) && KindInv(th);
      if Working(th.pc) {
        PendingIsUntouched(s.db, th, t);
        if !s.db.orders[t].status.Pending? {
          WorkNeverReturnsToPending(s.db, th, Fine, t);
        } else if e.i == i {
          OwnCallSettles(s.db, th, o);
        }
      } else if e.i == i && StillToSettle(th.pc) {
        LockStepsLeadToTheSection(s, i);
      }
    }
  }

  lemma LockStepsLeadToTheSection(s: State, i: nat)
    requires Enabled(s, i) && !Working(s.threads[i].pc) && StillToSettle(s.threads[i].pc)
    ensures StillToSettle(RunThread(s, i, Fine).threads[i].pc)
  {
  }

  lemma {:induction false} RunsKeepSettling(z: State, more: seq<Event>, i: nat, o: Order)
    requires Inv(z) && SettleKinds(z) && Settling(z, i, o) && Undisturbed(more, z.threads[i].trade, z.threads[i].kind)
    ensures var y := Exec(z, more);
            && Inv(y) && SettleKinds(y) && Settling(y, i, o)
            && y.threads[i].trade == z.threads[i].trade && y.threads[i].kind == z.threads[i].kind
  {
    if more != [] {
      var init, e := more[..|more| - 1], more[|more| - 1];
      RunsKeepSettling(z, init, i, o);
      assert [e][0] == e;
      StepKeepsSettling(Exec(z, init), e, i, o);
      StepKeepsSettleKinds(Exec(z, init), e);
      StepKeepsInv(Exec(z, init), e);
    }
  }

  lemma {:induction false} ReachableSettleKinds(s: State, es: seq<Event>)
    requires Initial(s)
    ensures SettleKinds(Exec(s, es))
  {
    if es != [] {
      ReachableSettleKinds(s, es[..|es| - 1]);
      StepKeepsSettleKinds(Exec(s, es[..|es| - 1]), es[|es| - 1]);
    }
  }

  lemma {:induction false} ExecConcat(s: State, es: seq<Event>, more: seq<Event>)
    ensures Exec(s, es + more) == Exec(Exec(s, es), more)
    decreases |more|
  {
    if more == [] {
      assert es + more == es;
    } else {
      assert (es + more)[..|es + more| - 1] == es + more[..|more| - 1];
      ExecConcat(s, es, more[..|more| - 1]);
    }
  }

  /** In every interleaving with any other handlers: a handler that has not started when its order is there leaves it no
      longer pending when it is done, if no call fails and no subscription takes the number.  (For a completion by hand,
      the order is worth at least one and the rate at least one.)  With SuccessIsGranted, a successful order is credited. */
  lemma DoneMeansSettled(s: State, es: seq<Event>, more: seq<Event>, i: nat)
    requires Initial(s) && i < |Exec(s, es).threads| && Exec(s, es).threads[i].pc.Start?
    requires SettlesTopUps(Exec(s, es).threads[i].kind)
    requires var z := Exec(s, es); z.threads[i].trade in z.db.orders && z.threads[i].trade !in z.db.subs
    requires var z := Exec(s, es);
             z.threads[i].kind.AdminComplete? ==> z.db.rate >= 1.0 && WorthCompleting(z.db.orders[z.threads[i].trade])
    requires Undisturbed(more, Exec(s, es).threads[i].trade, Exec(s, es).threads[i].kind)
    ensures var z, y := Exec(s, es), Exec(s, es + more);
            && i < |y.threads|
            && (y.threads[i].pc.Done? ==>
                 z.threads[i].trade in y.db.orders && !y.db.orders[z.threads[i].trade].status.Pending?)
  {
    var z := Exec(s, es);
    RunsKeepInv(s, es);
    ReachableSettleKinds(s, es);
    ExecConcat(s, es, more);
    RunsKeepSettling(z, more, i, z.db.orders[z.threads[i].trade]);
  }

  predicate CompletesSubscriptions(kind: Handler) {
    kind.EpaySubscription? || kind.StripeComplete? || kind.CreemComplete?
  }

  ghost predicate Completing(s: State, i: nat) {
    && i < |s.threads| && CompletesSubscriptions(s.threads[i].kind) && s.threads[i].trade in s.db.subs
    && (s.db.subs[s.threads[i].trade].status.Pending? ==> StillToSettle(s.threads[i].pc) && !s.threads[i].pc.Settle?)
  }

  predicate AllFine(es: seq<Event>) {
    forall k :: 0 <= k < |es| && es[k].Run? ==> es[k].call.Fine?
  }

  lemma StepKeepsCompleting(s: State, e: Event, i: nat)
    requires Inv(s) && Completing(s, i) && AllFine([e])
    ensures Completing(Step(s, e), i) && Step(s, e).threads[i].trade == s.threads[i].trade
  {
    assert [e][0] == e;
    if e.Run? && Enabled(s, e.i) {
      var th := s.threads[e.i];
      ThreadStepEffect(s, e.i, e.call);
      assert KindInv(th);
      if !Working(th.pc) && e.i == i && StillToSettle(th.pc) {
        LockStepsLeadToTheSection(s, i);
      }
    }
  }

  lemma {:induction false} RunsKeepCompleting(z: State, more: seq<Event>, i: nat)
    requires Inv(z) && Completing(z, i) && AllFine(more)
    ensures var y := Exec(z, more); Inv(y) && Completing(y, i) && y.threads[i].trade == z.threads[i].trade
  {
    if more != [] {
      var init, e := more[..|more| - 1], more[|more| - 1];
      RunsKeepCompleting(z, init, i);
      assert [e][0] == e;
      StepKeepsCompleting(Exec(z, init), e, i);
      StepKeepsInv(Exec(z, init), e);
    }
  }

  /** The same for subscriptions. */
  lemma DoneMeansCompleted(s: State, es: seq<Event>, more: seq<Event>, i: nat)
    requires Initial(s) && i < |Exec(s, es).threads| && Exec(s, es).threads[i].pc.Start?
    requires CompletesSubscriptions(Exec(s, es).threads[i].kind) && AllFine(more)
    requires Exec(s, es).threads[i].trade in Exec(s, es).db.subs
    ensures var t, y := Exec(s, es).threads[i].trade, Exec(s, es + more);
            && i < |y.threads|
            && (y.threads[i].pc.Done? ==> t in y.db.subs && !y.db.subs[t].status.Pending?)
  {
    RunsKeepInv(s, es);
    ExecConcat(s, es, more);
    RunsKeepCompleting(Exec(s, es), more, i);
  }

  // ---------- runs that show what is not promised ----------

  lemma ExecOneMore(s: State, es: seq<Event>, e: Event)
    ensures Exec(s, es + [e]) == Step(Exec(s, es), e)
  {
    assert (es + [e])[..|es + [e]| - 1] == es;
  }

  /** The states of such a run: threads 0 and 1 handle order t, thread 2 handles order u. */
  function BlockingState(t: Trade, u: Trade, kind: Handler, k: nat): State
    requires k <= 7
  {
    var creator := if k < 4 then [Start, WantCreate, Recheck, Publish(0)][k] else Acquire(0, true);
    var follower := if k < 5 then Start else if k == 5 then Acquire(0, false) else Enter;
    State([Thread(t, kind, creator), Thread(t, kind, follower), Thread(u, kind, if k < 7 then Start else WantCreate)],
          if k < 4 then map[] else map[t := 0], if k < 3 then 0 else 1, if k < 2 then None else Some(0),
          if k < 6 then map[] else map[0 := 1], Database(1.0, map[], map[], []))
  }

  function BlockingThread(k: nat): nat {
    if k < 4 then 0 else if k < 6 then 1 else 2
  }

  lemma BlockingStep(t: Trade, u: Trade, kind: Handler, k: nat)
    requires t != u && k < 7
    ensures Step(BlockingState(t, u, kind, k), Run(BlockingThread(k), Fine)) == BlockingState(t, u, kind, k + 1)
  {
    var s := BlockingState(t, u, kind, k);
    assert Enabled(s, BlockingThread(k)) && !Working(s.threads[BlockingThread(k)].pc);
  }

  /** A creator can wait for its own order's mutex while it holds createLock, and then a handler of another,
      untouched order waits as well. */
  lemma CreatorCanBlockOtherOrders(t: Trade, u: Trade, kind: Handler) returns (s: State, es: seq<Event>)
    requires t != u
    ensures Initial(s)
    ensures var z := Exec(s, es);
            && |z.threads| == 3 && z.threads[0].pc.Acquire? && z.createOwner == Some(0) && !Enabled(z, 0)
            && z.threads[2].trade == u && u !in z.locks && !Enabled(z, 2)
  {
    s, es := BlockingState(t, u, kind, 0), [];
    var k := 0;
    while k < 7
      invariant 0 <= k <= 7 && Exec(s, es) == BlockingState(t, u, kind, k)
    {
      BlockingStep(t, u, kind, k);
      ExecOneMore(s, es, Run(BlockingThread(k), Fine));
      es := es + [Run(BlockingThread(k), Fine)];
      k := k + 1;
    }
  }

  lemma FiveExpirySteps(z: State, i: nat, t: Trade)
    requires i < |z.threads| && z.threads[i] == Thread(t, StripeExpire, Start)
    requires t in z.locks && z.locks[t] !in z.owners && t !in z.db.subs && t in z.db.orders
    ensures var r := Run(i, Fine);
            var z' := Step(Step(Step(Step(Step(z, r), r), r), r), r);
            z'.db == z.db.(orders := z.db.orders[t := z.db.orders[t].(status := Expired)])
  {
    var r := Run(i, Fine);
    var z1 := Step(z, r);
    assert z1 == At(z, i, Acquire(z.locks[t], false));
    var z2 := Step(z1, r);
    assert z2 == At(z, i, Enter).(owners := z.owners[z.locks[t] := i]);
    var z3 := Step(z2, r);
    assert z3.db == z.db && z3.threads[i] == Thread(t, StripeExpire, ReadExpire);
    var z4 := Step(z3, r);
    assert z4.db == z.db && z4.threads[i] == Thread(t, StripeExpire, WriteExpire(z.db.orders[t]));
  }

  lemma MutexIsFree(z: State, i: nat, t: Trade)
    requires LockInv(z) && i < |z.threads| && z.threads[i].pc.Start? && t in z.locks
    requires forall j :: 0 <= j < |z.threads| && j != i ==> z.threads[j].pc.Done?
    ensures z.locks[t] !in z.owners
  {
  }

  /** Whenever an order is successful and only an expiry handler for it is left, running that handler turns the
      order expired, while what was credited stays credited. */
  lemma ExpiryOverwritesSuccess(s: State, es: seq<Event>, i: nat, t: Trade)
    requires Initial(s) && i < |Exec(s, es).threads|
    requires Exec(s, es).threads[i] == Thread(t, StripeExpire, Start)
    requires forall j :: 0 <= j < |Exec(s, es).threads| && j != i ==> Exec(s, es).threads[j].pc.Done?
    requires t in Exec(s, es).locks && t !in Exec(s, es).db.subs
    requires t in Exec(s, es).db.orders && Exec(s, es).db.orders[t].status.Success?
    ensures var r := Run(i, Fine);
            var z := Step(Step(Step(Step(Step(Exec(s, es), r), r), r), r), r);
            && t in z.db.orders && z.db.orders[t].status.Expired?
            && z.db.ledger == Exec(s, es).db.ledger
  {
    RunsKeepInv(s, es);
    MutexIsFree(Exec(s, es), i, t);
    FiveExpirySteps(Exec(s, es), i, t);
  }

  // ---------- runs in which an order is settled wrongly ----------

  /** One handler for a new order that nobody else locks: the states up to its section. */
  function SoloState(t: Trade, o: Order, kind: Handler, rest: seq<Thread>, k: nat): State
    requires k <= 7
  {
    var pc := if k <= 1 then Start else [WantCreate, Recheck, Publish(0), Acquire(0, true), Leave, Enter][k - 2];
    State([Thread(t, kind, pc)] + rest,
          if k < 5 then map[] else map[t := 0], if k < 4 then 0 else 1, if 3 <= k < 7 then Some(0) else None,
          if k < 6 then map[] else map[0 := 0],
          Database(1.0, if k == 0 then map[] else map[t := o], map[], []))
  }

  function SoloEvent(t: Trade, o: Order, k: nat): Event {
    if k == 0 then PlaceOrder(t, o) else Run(0, Fine)
  }

  lemma SoloStep(t: Trade, o: Order, kind: Handler, rest: seq<Thread>, k: nat)
    requires k < 7 && o.status.Pending?
    ensures Step(SoloState(t, o, kind, rest, k), SoloEvent(t, o, k)) == SoloState(t, o, kind, rest, k + 1)
  {
    var s := SoloState(t, o, kind, rest, k);
    assert s.threads[0].trade == t && s.threads[0].kind == kind;
    assert forall pc :: s.threads[0 := Thread(t, kind, pc)] == [Thread(t, kind, pc)] + rest;
  }

  lemma SoloRun(t: Trade, o: Order, kind: Handler, rest: seq<Thread>) returns (es: seq<Event>)
    requires o.status.Pending?
    ensures Exec(SoloState(t, o, kind, rest, 0), es) == SoloState(t, o, kind, rest, 7)
  {
    var s := SoloState(t, o, kind, rest, 0);
    es := [];
    var k := 0;
    while k < 7
      invariant 0 <= k <= 7 && Exec(s, es) == SoloState(t, o, kind, rest, k)
    {
      SoloStep(t, o, kind, rest, k);
      ExecOneMore(s, es, SoloEvent(t, o, k));
      es := es + [SoloEvent(t, o, k)];
      k := k + 1;
    }
  }

  /** The state inside the section, with the thread at pc and the database as given. */
  function InSection(t: Trade, o: Order, kind: Handler, rest: seq<Thread>, pc: Pc, db: Database): State {
    SoloState(t, o, kind, rest, 7).(threads := [Thread(t, kind, pc)] + rest, db := db)
  }

  lemma SectionStep(t: Trade, o: Order, kind: Handler, rest: seq<Thread>, pc: Pc, db: Database, call: Call)
    requires Working(pc)
    ensures var w := Work(db, Thread(t, kind, pc), call);
            Step(InSection(t, o, kind, rest, pc, db), Run(0, call)) == InSection(t, o, kind, rest, w.1, w.0)
  {
    var s, w := InSection(t, o, kind, rest, pc, db), Work(db, Thread(t, kind, pc), call);
    assert s.threads[0] == Thread(t, kind, pc);
    assert s.threads[0 := Thread(t, kind, w.1)] == [Thread(t, kind, w.1)] + rest;
  }

  /** An Epay order is marked successful, the crediting call fails, and the order stays successful without credit. */
  lemma CreditIsLost(t: Trade, o: Order) returns (s: State, es: seq<Event>)
    requires o.status.Pending?
    ensures Initial(s) && !Accounted(Exec(s, es), t)
    ensures forall i :: 0 <= i < |Exec(s, es).threads| ==> Exec(s, es).threads[i].pc.Exit?
  {
    s := SoloState(t, o, EpayNotify, [], 0);
    es := SoloRun(t, o, EpayNotify, []);
    var db := Database(1.0, map[t := o], map[], []);
    var marked := db.(orders := db.orders[t := o.(status := Success)]);
    assert Exec(s, es) == InSection(t, o, EpayNotify, [], Enter, db);
    SectionStep(t, o, EpayNotify, [], Enter, db, Fine);
    ExecOneMore(s, es, Run(0, Fine));
    es := es + [Run(0, Fine)];
    assert Exec(s, es) == InSection(t, o, EpayNotify, [], Mark(o), db);
    SectionStep(t, o, EpayNotify, [], Mark(o), db, Fine);
    ExecOneMore(s, es, Run(0, Fine));
    es := es + [Run(0, Fine)];
    assert Exec(s, es) == InSection(t, o, EpayNotify, [], Credit(o), marked);
    SectionStep(t, o, EpayNotify, [], Credit(o), marked, WriteFails);
    ExecOneMore(s, es, Run(0, WriteFails));
    es := es + [Run(0, WriteFails)];
    assert Exec(s, es) == InSection(t, o, EpayNotify, [], Exit, marked);
  }

  lemma LeaveSection(t: Trade, o: Order, kind: Handler, rest: seq<Thread>, db: Database)
    ensures var z := Step(Step(InSection(t, o, kind, rest, Exit, db), Run(0, Fine)), Run(0, Fine));
            z == InSection(t, o, kind, rest, Done, db).(owners := map[])
  {
    var s := InSection(t, o, kind, rest, Exit, db);
    var s1 := Step(s, Run(0, Fine));
    assert s1 == InSection(t, o, kind, rest, Unlock(0), db) by {
      assert s.threads[0 := Thread(t, kind, Unlock(0))] == [Thread(t, kind, Unlock(0))] + rest;
    }
    assert s1.threads[0 := Thread(t, kind, Done)] == [Thread(t, kind, Done)] + rest;
    assert map[0 := 0] - {0} == map[];
  }

  function PaidDatabase(t: Trade, o: Order): Database {
    Database(1.0, map[t := o.(status := Success)], map[], [Quota(t, o.money * 1.0)])
  }

  /** The state after a Stripe order has been completed. */
  function PaidState(t: Trade, o: Order, rest: seq<Thread>): State {
    InSection(t, o, StripeComplete, rest, Done, PaidDatabase(t, o)).(owners := map[])
  }

  lemma PaidRun(t: Trade, o: Order, rest: seq<Thread>) returns (es: seq<Event>)
    requires o.status.Pending?
    ensures Exec(SoloState(t, o, StripeComplete, rest, 0), es) == PaidState(t, o, rest)
  {
    var s := SoloState(t, o, StripeComplete, rest, 0);
    es := SoloRun(t, o, StripeComplete, rest);
    var db, paid := Database(1.0, map[t := o], map[], []), PaidDatabase(t, o);
    SectionStep(t, o, StripeComplete, rest, Enter, db, Fine);
    ExecOneMore(s, es, Run(0, Fine));
    es := es + [Run(0, Fine)];
    assert Exec(s, es) == InSection(t, o, StripeComplete, rest, Settle, db);
    SectionStep(t, o, StripeComplete, rest, Settle, db, Fine);
    ExecOneMore(s, es, Run(0, Fine));
    es := es + [Run(0, Fine)];
    assert SettleInOneTransaction(db, t, StripeComplete, Fine) == paid;
    assert Exec(s, es) == InSection(t, o, StripeComplete, rest, Exit, paid);
    LeaveSection(t, o, StripeComplete, rest, paid);
    ExecOneMore(s, es, Run(0, Fine));
    ExecOneMore(s, es + [Run(0, Fine)], Run(0, Fine));
    es := es + [Run(0, Fine)] + [Run(0, Fine)];
  }

  lemma PaidThenExpired(t: Trade, o: Order)
    ensures var z := PaidState(t, o, [Thread(t, StripeExpire, Start)]);
            && TimesCredited(z.db.ledger, t) == 1
            && var r := Run(1, Fine);
               Step(Step(Step(Step(Step(z, r), r), r), r), r).db ==
               z.db.(orders := z.db.orders[t := z.db.orders[t].(status := Expired)])
  {
    var z := PaidState(t, o, [Thread(t, StripeExpire, Start)]);
    assert z.threads[1] == Thread(t, StripeExpire, Start);
    assert z.db.ledger[..0] == [];
    FiveExpirySteps(z, 1, t);
  }

  /** A Stripe order is completed and credited, and then its expiry arrives: the order ends expired, its credit kept. */
  lemma CreditedOrderExpires(t: Trade, o: Order) returns (s: State, es: seq<Event>)
    requires o.status.Pending?
    ensures Initial(s)
    ensures var z := Exec(s, es);
            && t in z.db.orders && z.db.orders[t].status.Success? && TimesCredited(z.db.ledger, t) == 1
            && var r := Run(1, Fine);
               Step(Step(Step(Step(Step(z, r), r), r), r), r).db ==
               z.db.(orders := z.db.orders[t := z.db.orders[t].(status := Expired)])
  {
    s := SoloState(t, o, StripeComplete, [Thread(t, StripeExpire, Start)], 0);
    es := PaidRun(t, o, [Thread(t, StripeExpire, Start)]);
    PaidThenExpired(t, o);
  }
}
