/** Payment-order settlement: the lazily created per-order mutexes of LockOrder / UnlockOrder and
    the webhook handlers that run under them, as one interleaved state machine.

    A handler is a thread with a program counter; one step of a thread is one access to shared
    state (the lock map, createLock, a mutex, or the database).  A database transaction is one
    step.  `call` on a step says how the database call it makes ends. */
module OrderLocks {
  import opened Options
  import TopUpAmounts

  type Trade = string
  type Mutex = nat

  datatype Status = Pending | Success | Expired

  datatype Order = Order(units: int, money: real, viaStripe: bool, status: Status)

  datatype Handler = EpayNotify | EpaySubscription | StripeComplete | CreemComplete | StripeExpire | AdminComplete

  datatype Pc =
    | Start                               // LockOrder: first Load of the lock map
    | WantCreate                          // waiting for createLock
    | Recheck                             // second Load, createLock held
    | Publish(made: Mutex)                // Store of the mutex just allocated, createLock held
    | Acquire(m: Mutex, creating: bool)   // waiting for the order mutex; a creator still holds createLock
    | Leave                               // deferred createLock.Unlock
    | Enter                               // first database call of the handler
    | Settle                              // the single-transaction credit of Recharge / RechargeCreem
    | Mark(o: Order)                      // EpayNotify: save the copy it read as successful
    | Credit(o: Order)                    // EpayNotify: IncreaseUserQuota
    | ReadExpire                          // sessionExpired: load the top-up order
    | WriteExpire(o: Order)               // sessionExpired: save the copy it read as expired
    | Exit                                // UnlockOrder: Load of the lock map
    | Unlock(held: Mutex)                 // UnlockOrder: Unlock
    | Done

  datatype Thread = Thread(trade: Trade, kind: Handler, pc: Pc)

  /** What a run hands out: quota for a top-up order, or a subscription for a subscription order. */
  datatype Grant = Quota(trade: Trade, amount: real) | Subscription(trade: Trade)

  datatype SubscriptionOrder = SubscriptionOrder(money: real, status: Status)

  /** `rate` is the configured quota per unit. */
  datatype Database = Database(
    rate: real, orders: map<Trade, Order>, subs: map<Trade, SubscriptionOrder>, ledger: seq<Grant>)

  datatype State = State(
    threads: seq<Thread>,
    locks: map<Trade, Mutex>,
    nextMutex: nat,
    createOwner: Option<nat>,
    owners: map<Mutex, nat>,
    db: Database)

  /** How a database call ends: well, or with an error from its read or from a later write. */
  datatype Call = Fine | ReadFails | WriteFails

  datatype Event =
    | Run(i: nat, call: Call)
    | PlaceOrder(t: Trade, o: Order)
    | PlaceSubscription(t: Trade, money: real)
    | SetRate(rate: real)

  ghost predicate Initial(s: State) {
    && (forall i :: 0 <= i < |s.threads| ==> s.threads[i].pc.Start?)
    && s.locks == map[] && s.owners == map[] && s.createOwner == None && s.nextMutex == 0
    && s.db.orders == map[] && s.db.subs == map[] && s.db.ledger == []
  }

  // ---------- what a handler does to the database, one call at a time ----------

  /** The quota a settlement adds to the user, by payment route. */
  function QuotaFor(rate: real, kind: Handler, o: Order): real {
    match kind
    case StripeComplete => o.money * rate
    case CreemComplete => o.units as real
    case AdminComplete =>
      if o.viaStripe then TopUpAmounts.MoneyCredit(o.money, rate) as real
      else TopUpAmounts.EpayCredit(o.units, rate) as real
    case _ => TopUpAmounts.EpayCredit(o.units, rate) as real
  }

  /** Recharge, RechargeCreem and ManualCompleteTopUp: check pending, mark and credit in one transaction. */
  function SettleInOneTransaction(db: Database, t: Trade, kind: Handler, call: Call): Database {
    if !call.Fine? || t !in db.orders || !db.orders[t].status.Pending? then db
    else if kind.AdminComplete? && QuotaFor(db.rate, kind, db.orders[t]) <= 0.0 then db
    else
      db.(orders := db.orders[t := db.orders[t].(status := Success)],
          ledger := db.ledger + [Quota(t, QuotaFor(db.rate, kind, db.orders[t]))])
  }

  /** CompleteSubscriptionOrder: also upserts the top-up row of the same number as successful. */
  function CompleteSubscription(db: Database, t: Trade, call: Call): Database {
    if !call.Fine? || t !in db.subs || !db.subs[t].status.Pending? then db
    else
      var sub := db.subs[t];
      var row := if t in db.orders then db.orders[t].(money := sub.money, status := Success)
                 else Order(0, sub.money, false, Success);
      db.(orders := db.orders[t := row], subs := db.subs[t := sub.(status := Success)],
          ledger := db.ledger + [Subscription(t)])
  }

  function ExpireSubscription(db: Database, t: Trade, call: Call): Database {
    if !call.Fine? || t !in db.subs || !db.subs[t].status.Pending? then db
    else db.(subs := db.subs[t := db.subs[t].(status := Expired)])
  }

  predicate Working(pc: Pc) {
    pc.Enter? || pc.Settle? || pc.Mark? || pc.Credit? || pc.ReadExpire? || pc.WriteExpire?
  }

  /** One database call of a handler inside its section.  A read that fails is taken for a missing row, so a webhook for
      a subscription goes on to the top-up orders. */
  function Work(db: Database, th: Thread, call: Call): (r: (Database, Pc))
    requires Working(th.pc)
    ensures r.1.Exit? || (Working(r.1) && !r.1.Enter?)
  {
    var t := th.trade;
    var found, subscribed := t in db.orders && !call.ReadFails?, t in db.subs && !call.ReadFails?;
    match th.pc
    case Enter =>
      (match th.kind
       case EpayNotify => (db, if found && db.orders[t].status.Pending? then Mark(db.orders[t]) else Exit)
       case EpaySubscription => (CompleteSubscription(db, t, call), Exit)
       case StripeComplete => if subscribed then (CompleteSubscription(db, t, call), Exit) else (db, Settle)
       case CreemComplete => if subscribed then (CompleteSubscription(db, t, call), Exit) else (db, Settle)
       case StripeExpire => if subscribed then (ExpireSubscription(db, t, call), Exit) else (db, ReadExpire)
       case AdminComplete => (SettleInOneTransaction(db, t, AdminComplete, call), Exit))
    case Settle => (SettleInOneTransaction(db, t, th.kind, call), Exit)
    case Mark(o) => if call.Fine? then (db.(orders := db.orders[t := o.(status := Success)]), Credit(o)) else (db, Exit)
    case Credit(o) =>
      if call.Fine? && TopUpAmounts.EpayCredit(o.units, db.rate) >= 0
      then (db.(ledger := db.ledger + [Quota(t, QuotaFor(db.rate, EpayNotify, o))]), Exit) else (db, Exit)
    case ReadExpire => (db, if found then WriteExpire(db.orders[t]) else Exit)
    case WriteExpire(o) => (if call.Fine? then db.(orders := db.orders[t := o.(status := Expired)]) else db, Exit)
  }

  // ---------- steps of the machine ----------

  predicate Enabled(s: State, i: nat) {
    && i < |s.threads|
    && match s.threads[i].pc
       case Done => false
       case WantCreate => s.createOwner.None?
       case Acquire(m, _) => m !in s.owners
       case _ => true
  }

  function At(s: State, i: nat, pc: Pc): State
    requires i < |s.threads|
  {
    s.(threads := s.threads[i := s.threads[i].(pc := pc)])
  }

  /** A step of LockOrder or UnlockOrder. */
  function LockStep(s: State, i: nat): State
    requires Enabled(s, i) && !Working(s.threads[i].pc)
  {
    var t := s.threads[i].trade;
    match s.threads[i].pc
    case Start => At(s, i, if t in s.locks then Acquire(s.locks[t], false) else WantCreate)
    case WantCreate => At(s, i, Recheck).(createOwner := Some(i))
    case Recheck =>
      if t in s.locks then At(s, i, Acquire(s.locks[t], true))
      else At(s, i, Publish(s.nextMutex)).(nextMutex := s.nextMutex + 1)
    case Publish(m) => At(s, i, Acquire(m, true)).(locks := s.locks[t := m])
    case Acquire(m, creating) => At(s, i, if creating then Leave else Enter).(owners := s.owners[m := i])
    case Leave => At(s, i, Enter).(createOwner := None)
    case Exit => At(s, i, if t in s.locks then Unlock(s.locks[t]) else Done)
    case Unlock(m) => At(s, i, Done).(owners := s.owners - {m})
  }

  function Moved(s: State, i: nat, w: (Database, Pc)): State
    requires i < |s.threads|
  {
    At(s, i, w.1).(db := w.0)
  }

  function RunThread(s: State, i: nat, call: Call): State
    requires Enabled(s, i)
  {
    if Working(s.threads[i].pc) then Moved(s, i, Work(s.db, s.threads[i], call)) else LockStep(s, i)
  }

  /** One event of a run.  A thread that cannot step, or an order number already taken (the column is
      unique), leaves the state as it is. */
  function Step(s: State, e: Event): State {
    match e
    case Run(i, call) => if Enabled(s, i) then RunThread(s, i, call) else s
    case PlaceOrder(t, o) =>
      if t in s.db.orders then s else s.(db := s.db.(orders := s.db.orders[t := o.(status := Pending)]))
    case PlaceSubscription(t, money) =>
      if t in s.db.subs then s
      else s.(db := s.db.(subs := s.db.subs[t := SubscriptionOrder(money, Pending)]))
    case SetRate(rate) => s.(db := s.db.(rate := rate))
  }

  function Exec(s: State, es: seq<Event>): State {
    if es == [] then s else Step(Exec(s, es[..|es| - 1]), es[|es| - 1])
  }

  // ---------- the locking invariant ----------

  predicate HoldsCreate(pc: Pc) {
    pc.Recheck? || pc.Publish? || pc.Leave? || (pc.Acquire? && pc.creating)
  }

  /** The thread owns its order's mutex. */
  predicate InCritical(pc: Pc) {
    pc.Leave? || Working(pc) || pc.Exit? || pc.Unlock?
  }

  ghost predicate CreateLockInv(s: State) {
    && (s.createOwner.Some? ==> s.createOwner.value < |s.threads| && HoldsCreate(s.threads[s.createOwner.value].pc))
    && (forall i :: 0 <= i < |s.threads| && HoldsCreate(s.threads[i].pc) ==> s.createOwner == Some(i))
  }

  /** Mutexes in the map are allocated and belong to one trade number each. */
  ghost predicate LockMapInv(s: State) {
    && (forall t :: t in s.locks ==> s.locks[t] < s.nextMutex)
    && (forall t, u :: t in s.locks && u in s.locks && s.locks[t] == s.locks[u] ==> t == u)
  }

  /** The mutex a program counter speaks of is the one in the map for its trade number; a mutex about
      to be published is in no entry of the map yet, and its trade number has none. */
  ghost predicate PcInv(s: State, i: nat)
    requires i < |s.threads|
  {
    var th := s.threads[i];
    && (th.pc.Acquire? ==> th.trade in s.locks && s.locks[th.trade] == th.pc.m)
    && (th.pc.Unlock? ==> th.trade in s.locks && s.locks[th.trade] == th.pc.held)
    && (th.pc.Publish? ==>
          th.trade !in s.locks && th.pc.made < s.nextMutex && forall t :: t in s.locks ==> s.locks[t] != th.pc.made)
    && (InCritical(th.pc) ==>
          th.trade in s.locks && s.locks[th.trade] in s.owners && s.owners[s.locks[th.trade]] == i)
  }

  ghost predicate OwnerInv(s: State) {
    forall m :: m in s.owners ==>
      var i := s.owners[m];
      && i < |s.threads| && InCritical(s.threads[i].pc)
      && s.threads[i].trade in s.locks && s.locks[s.threads[i].trade] == m
  }

  ghost predicate LockInv(s: State) {
    CreateLockInv(s) && LockMapInv(s) && OwnerInv(s) && forall i: nat :: i < |s.threads| ==> PcInv(s, i)
  }

  /** Two threads inside the section of one trade number are the same thread. */
  lemma SectionsExclude(s: State, i: nat, j: nat)
    requires LockInv(s) && i < |s.threads| && j < |s.threads|
    requires InCritical(s.threads[i].pc) && InCritical(s.threads[j].pc) && s.threads[i].trade == s.threads[j].trade
    ensures i == j
  {
    assert PcInv(s, i) && PcInv(s, j);
  }

  /** A step inside the section touches no lock. */
  lemma WorkKeepsLocks(s: State, i: nat, w: (Database, Pc))
    requires LockInv(s) && i < |s.threads| && Working(s.threads[i].pc) && (w.1.Exit? || Working(w.1))
    ensures LockInv(Moved(s, i, w))
  {
    forall j: nat | j < |s.threads|
      ensures PcInv(Moved(s, i, w), j)
    {
      assert PcInv(s, j);
    }
  }

  lemma StepKeepsCreateLock(s: State, i: nat)
    requires LockInv(s) && Enabled(s, i) && !Working(s.threads[i].pc)
    ensures CreateLockInv(LockStep(s, i))
  {
  }

  lemma StepKeepsLockMap(s: State, i: nat)
    requires LockInv(s) && Enabled(s, i) && !Working(s.threads[i].pc)
    ensures LockMapInv(LockStep(s, i))
  {
    assert PcInv(s, i);
  }

  lemma StepKeepsOwners(s: State, i: nat)
    requires LockInv(s) && Enabled(s, i) && !Working(s.threads[i].pc)
    ensures OwnerInv(LockStep(s, i))
  {
    assert PcInv(s, i);
  }

  lemma StepKeepsOwnPc(s: State, i: nat)
    requires LockInv(s) && Enabled(s, i) && !Working(s.threads[i].pc)
    ensures PcInv(LockStep(s, i), i)
  {
    assert PcInv(s, i);
  }

  lemma StepKeepsOtherPc(s: State, i: nat, j: nat)
    requires LockInv(s) && Enabled(s, i) && !Working(s.threads[i].pc) && j < |s.threads| && j != i
    ensures PcInv(LockStep(s, i), j)
  {
    assert PcInv(s, i) && PcInv(s, j);
    assert LockStep(s, i).threads[j] == s.threads[j];
    if s.threads[i].pc.Publish? {
      // only one thread holds createLock, so j is not publishing too
      assert !HoldsCreate(s.threads[j].pc);
    } else if s.threads[i].pc.Unlock? && InCritical(s.threads[j].pc) {
      assert s.locks[s.threads[j].trade] != s.threads[i].pc.held;
    }
  }

  // ---------- the database invariant ----------

  ghost predicate HasQuota(ledger: seq<Grant>, t: Trade) {
    exists k :: 0 <= k < |ledger| && ledger[k].Quota? && ledger[k].trade == t
  }

  /** No trade number is granted quota twice, nor a subscription twice. */
  ghost predicate GrantedOnce(ledger: seq<Grant>) {
    forall j, k :: 0 <= j < k < |ledger| && ledger[j].trade == ledger[k].trade ==> ledger[j].Quota? != ledger[k].Quota?
  }

  /** Whatever was granted is for an order that has left pending. */
  ghost predicate LedgerInv(db: Database) {
    && (forall k :: 0 <= k < |db.ledger| && db.ledger[k].Quota? ==>
          db.ledger[k].trade in db.orders && !db.orders[db.ledger[k].trade].status.Pending?)
    && (forall k :: 0 <= k < |db.ledger| && db.ledger[k].Subscription? ==>
          db.ledger[k].trade in db.subs && !db.subs[db.ledger[k].trade].status.Pending?)
    && GrantedOnce(db.ledger)
  }

  /** The order copy a handler works on is still the stored one; a handler about to credit has not credited. */
  ghost predicate CopyInv(db: Database, th: Thread) {
    && (th.pc.Mark? ==> th.trade in db.orders && db.orders[th.trade] == th.pc.o && th.pc.o.status.Pending?)
    && (th.pc.Credit? ==>
          && th.trade in db.orders && db.orders[th.trade] == th.pc.o.(status := Success)
          && !HasQuota(db.ledger, th.trade))
    && (th.pc.WriteExpire? ==> th.trade in db.orders && db.orders[th.trade] == th.pc.o)
  }

  /** Only EpayNotify marks and credits in two writes. */
  predicate KindInv(th: Thread) {
    th.pc.Mark? || th.pc.Credit? ==> th.kind.EpayNotify?
  }

  lemma GrantKeepsOnce(ledger: seq<Grant>, g: Grant)
    requires GrantedOnce(ledger)
    requires forall k :: 0 <= k < |ledger| && ledger[k].trade == g.trade ==> ledger[k].Quota? != g.Quota?
    ensures GrantedOnce(ledger + [g])
  {
  }

  lemma SettleKeepsLedger(db: Database, t: Trade, kind: Handler, call: Call)
    requires LedgerInv(db)
    ensures LedgerInv(SettleInOneTransaction(db, t, kind, call))
  {
    if SettleInOneTransaction(db, t, kind, call) != db {
      GrantKeepsOnce(db.ledger, Quota(t, QuotaFor(db.rate, kind, db.orders[t])));
    }
  }

  lemma CompleteKeepsLedger(db: Database, t: Trade, call: Call)
    requires LedgerInv(db)
    ensures LedgerInv(CompleteSubscription(db, t, call))
  {
    if CompleteSubscription(db, t, call) != db {
      GrantKeepsOnce(db.ledger, Subscription(t));
    }
  }

  lemma WorkKeepsLedger(db: Database, th: Thread, call: Call)
    requires LedgerInv(db) && CopyInv(db, th) && Working(th.pc)
    ensures LedgerInv(Work(db, th, call).0)
  {
    match th.pc
    case Enter =>
      SettleKeepsLedger(db, th.trade, AdminComplete, call);
      CompleteKeepsLedger(db, th.trade, call);
    case Settle =>
      SettleKeepsLedger(db, th.trade, th.kind, call);
    case Credit(o) =>
      GrantKeepsOnce(db.ledger, Quota(th.trade, QuotaFor(db.rate, EpayNotify, o)));
    case _ =>
  }

  lemma WorkKeepsOwnCopy(db: Database, th: Thread, call: Call)
    requires LedgerInv(db) && CopyInv(db, th) && Working(th.pc)
    ensures CopyInv(Work(db, th, call).0, th.(pc := Work(db, th, call).1))
  {
    if th.pc.Mark? && HasQuota(db.ledger, th.trade) {
      assert false;
    }
  }

  lemma WorkKeepsOtherCopy(db: Database, th: Thread, call: Call, other: Thread)
    requires CopyInv(db, th) && CopyInv(db, other) && Working(th.pc)
    requires InCritical(other.pc) ==> other.trade != th.trade
    ensures CopyInv(Work(db, th, call).0, other)
  {
    var db' := Work(db, th, call).0;
    assert db'.ledger == db.ledger || (|db'.ledger| == |db.ledger| + 1 && db'.ledger[..|db.ledger|] == db.ledger
                                       && db'.ledger[|db.ledger|].trade == th.trade);
  }

  // ---------- every run ----------

  ghost predicate Inv(s: State) {
    && LockInv(s) && LedgerInv(s.db)
    && forall i :: 0 <= i < |s.threads| ==> CopyInv(s.db, s.threads[i]) && KindInv(s.threads[i])
  }

  /** What a thread step does to the threads and the database. */
  lemma ThreadStepEffect(s: State, i: nat, call: Call)
    requires Enabled(s, i)
    ensures var s' := RunThread(s, i, call);
            && s'.threads == s.threads[i := s'.threads[i]] && s'.threads[i] == s.threads[i].(pc := s'.threads[i].pc)
            && (Working(s.threads[i].pc) ==> (s'.db, s'.threads[i].pc) == Work(s.db, s.threads[i], call))
            && (!Working(s.threads[i].pc) ==> s'.db == s.db && (!Working(s'.threads[i].pc) || s'.threads[i].pc.Enter?))
  {
  }

  lemma ThreadStepKeepsLocks(s: State, i: nat, call: Call)
    requires LockInv(s) && Enabled(s, i)
    ensures LockInv(RunThread(s, i, call))
  {
    if Working(s.threads[i].pc) {
      WorkKeepsLocks(s, i, Work(s.db, s.threads[i], call));
    } else {
      StepKeepsCreateLock(s, i);
      StepKeepsLockMap(s, i);
      StepKeepsOwners(s, i);
      forall j: nat | j < |LockStep(s, i).threads| ensures PcInv(LockStep(s, i), j) {
        if j == i { StepKeepsOwnPc(s, i); } else { StepKeepsOtherPc(s, i, j); }
      }
    }
  }

  lemma ThreadStepKeepsInv(s: State, i: nat, call: Call)
    requires Inv(s) && Enabled(s, i)
    ensures Inv(RunThread(s, i, call))
  {
    ThreadStepKeepsLocks(s, i, call);
    ThreadStepEffect(s, i, call);
    var s' := RunThread(s, i, call);
    if Working(s.threads[i].pc) {
      WorkKeepsLedger(s.db, s.threads[i], call);
      forall j | 0 <= j < |s'.threads| ensures CopyInv(s'.db, s'.threads[j]) {
        if j == i {
          WorkKeepsOwnCopy(s.db, s.threads[i], call);
        } else {
          if InCritical(s.threads[j].pc) && s.threads[j].trade == s.threads[i].trade { SectionsExclude(s, i, j); }
          WorkKeepsOtherCopy(s.db, s.threads[i], call, s.threads[j]);
        }
      }
    }
  }

  lemma StepKeepsInv(s: State, e: Event)
    requires Inv(s)
    ensures Inv(Step(s, e))
  {
    if e.Run? {
      if Enabled(s, e.i) { ThreadStepKeepsInv(s, e.i, e.call); }
    } else {
      var s' := Step(s, e);
      forall j: nat | j < |s'.threads| ensures PcInv(s', j) { assert PcInv(s, j); }
    }
  }

  lemma {:induction false} RunsKeepInv(s: State, es: seq<Event>)
    requires Initial(s)
    ensures Inv(Exec(s, es))
  {
    if es != [] {
      RunsKeepInv(s, es[..|es| - 1]);
      StepKeepsInv(Exec(s, es[..|es| - 1]), es[|es| - 1]);
    }
  }

  // ---------- exclusion and at-most-once credit ----------

  function TimesCredited(ledger: seq<Grant>, t: Trade): nat {
    if ledger == [] then 0
    else
      var last := ledger[|ledger| - 1];
      TimesCredited(ledger[..|ledger| - 1], t) + if last.Quota? && last.trade == t then 1 else 0
  }

  lemma {:induction false} UncreditedCountsZero(ledger: seq<Grant>, t: Trade)
    requires !HasQuota(ledger, t)
    ensures TimesCredited(ledger, t) == 0
  {
    if ledger != [] {
      var rest := ledger[..|ledger| - 1];
      assert forall k :: 0 <= k < |rest| ==> rest[k] == ledger[k];
      UncreditedCountsZero(rest, t);
    }
  }

  lemma {:induction false} OnceCountsAtMostOne(ledger: seq<Grant>, t: Trade)
    requires GrantedOnce(ledger)
    ensures TimesCredited(ledger, t) <= 1
  {
    if ledger != [] {
      var rest := ledger[..|ledger| - 1];
      assert GrantedOnce(rest);
      OnceCountsAtMostOne(rest, t);
      var last := ledger[|ledger| - 1];
      if last.Quota? && last.trade == t {
        assert forall k :: 0 <= k < |rest| ==> rest[k] == ledger[k];
        UncreditedCountsZero(rest, t);
      }
    }
  }

  /** In every interleaving of any number of handlers, sections of one trade number exclude each other and
      an order is credited at most once; a credited order has left pending. */
  lemma CreditedAtMostOnce(s: State, es: seq<Event>, t: Trade)
    requires Initial(s)
    ensures var z := Exec(s, es);
            && TimesCredited(z.db.ledger, t) <= 1
            && (TimesCredited(z.db.ledger, t) == 1 ==> t in z.db.orders && !z.db.orders[t].status.Pending?)
            && forall i, j | 0 <= i < |z.threads| && 0 <= j < |z.threads| && z.threads[i].trade == z.threads[j].trade
                             && InCritical(z.threads[i].pc) && InCritical(z.threads[j].pc) :: i == j
  {
    RunsKeepInv(s, es);
    var z := Exec(s, es);
    OnceCountsAtMostOne(z.db.ledger, t);
    if !HasQuota(z.db.ledger, t) { UncreditedCountsZero(z.db.ledger, t); }
    forall i, j | 0 <= i < |z.threads| && 0 <= j < |z.threads| && z.threads[i].trade == z.threads[j].trade
                  && InCritical(z.threads[i].pc) && InCritical(z.threads[j].pc)
      ensures i == j
    {
      SectionsExclude(z, i, j);
    }
  }

  // ---------- one mutex per trade number ----------

  predicate Publishing(s: State) {
    s.createOwner.Some? && s.createOwner.value < |s.threads| && s.threads[s.createOwner.value].pc.Publish?
  }

  /** Every mutex ever allocated is some trade number's entry, or is about to be published. */
  ghost predicate AllocationInv(s: State) {
    s.nextMutex == |s.locks| + if Publishing(s) then 1 else 0
  }

  lemma NewEntryCounts(locks: map<Trade, Mutex>, t: Trade, m: Mutex)
    requires t !in locks
    ensures |locks[t := m]| == |locks| + 1
  {
    assert locks[t := m].Keys == locks.Keys + {t};
    assert |locks[t := m].Keys| == |locks.Keys| + 1;
  }

  lemma LockStepKeepsAllocation(s: State, i: nat)
    requires CreateLockInv(s) && Enabled(s, i) && !Working(s.threads[i].pc) && PcInv(s, i) && AllocationInv(s)
    ensures AllocationInv(LockStep(s, i))
  {
    var th := s.threads[i];
    if th.pc.Publish? {
      NewEntryCounts(s.locks, th.trade, th.pc.made);
    }
  }

  lemma ThreadStepKeepsAllocation(s: State, i: nat, call: Call)
    requires CreateLockInv(s) && Enabled(s, i) && PcInv(s, i) && AllocationInv(s)
    ensures AllocationInv(RunThread(s, i, call))
  {
    if !Working(s.threads[i].pc) {
      LockStepKeepsAllocation(s, i);
    }
  }

  lemma StepKeepsLocks(s: State, e: Event, t: Trade)
    requires LockInv(s) && t in s.locks
    ensures t in Step(s, e).locks && Step(s, e).locks[t] == s.locks[t]
  {
    if e.Run? && Enabled(s, e.i) { assert PcInv(s, e.i); }
  }

  lemma StepKeepsAllocation(s: State, e: Event)
    requires LockInv(s) && AllocationInv(s)
    ensures AllocationInv(Step(s, e))
  {
    if e.Run? && Enabled(s, e.i) {
      assert PcInv(s, e.i);
      ThreadStepKeepsAllocation(s, e.i, e.call);
    }
  }

  lemma {:induction false} RunsKeepAllocation(s: State, es: seq<Event>)
    requires Initial(s)
    ensures AllocationInv(Exec(s, es))
  {
    if es == [] {
    } else {
      RunsKeepAllocation(s, es[..|es| - 1]);
      RunsKeepInv(s, es[..|es| - 1]);
      StepKeepsAllocation(Exec(s, es[..|es| - 1]), es[|es| - 1]);
    }
  }

  lemma {:induction false} LockKeptForGood(s: State, es: seq<Event>, more: seq<Event>, t: Trade)
    requires Initial(s) && t in Exec(s, es).locks
    ensures t in Exec(s, es + more).locks && Exec(s, es + more).locks[t] == Exec(s, es).locks[t]
    decreases |more|
  {
    if more == [] {
      assert es + more == es;
    } else {
      var init := more[..|more| - 1];
      LockKeptForGood(s, es, init, t);
      RunsKeepInv(s, es + init);
      assert (es + more)[..|es + more| - 1] == es + init;
      StepKeepsLocks(Exec(s, es + init), more[|more| - 1], t);
    }
  }

  /** In every run a trade number's mutex never changes once published, mutexes of different trade numbers
      differ, and no mutex is ever allocated beyond one per entry (plus one a single thread may be publishing). */
  lemma OneMutexPerTrade(s: State, es: seq<Event>, more: seq<Event>, t: Trade)
    requires Initial(s) && t in Exec(s, es).locks
    ensures t in Exec(s, es + more).locks && Exec(s, es + more).locks[t] == Exec(s, es).locks[t]
    ensures forall u :: u in Exec(s, es).locks && u != t ==> Exec(s, es).locks[u] != Exec(s, es).locks[t]
    ensures |Exec(s, es).locks| <= Exec(s, es).nextMutex <= |Exec(s, es).locks| + 1
  {
    LockKeptForGood(s, es, more, t);
    RunsKeepAllocation(s, es);
    RunsKeepInv(s, es);
  }

  // ---------- which statuses are final ----------

  lemma WorkNeverReturnsToPending(db: Database, th: Thread, call: Call, t: Trade)
    requires Working(th.pc) && t in db.orders && !db.orders[t].status.Pending?
    ensures t in Work(db, th, call).0.orders && !Work(db, th, call).0.orders[t].status.Pending?
  {
  }

  lemma StepNeverReturnsToPending(s: State, e: Event, t: Trade)
    requires t in s.db.orders && !s.db.orders[t].status.Pending?
    ensures t in Step(s, e).db.orders && !Step(s, e).db.orders[t].status.Pending?
  {
    if e.Run? && Enabled(s, e.i) {
      ThreadStepEffect(s, e.i, e.call);
      if Working(s.threads[e.i].pc) { WorkNeverReturnsToPending(s.db, s.threads[e.i], e.call, t); }
    }
  }

  /** Leaving pending is final: this is what at-most-once credit rests on. */
  lemma {:induction false} LeftPendingForGood(s: State, es: seq<Event>, t: Trade)
    requires t in s.db.orders && !s.db.orders[t].status.Pending?
    ensures t in Exec(s, es).db.orders && !Exec(s, es).db.orders[t].status.Pending?
  {
    if es != [] {
      LeftPendingForGood(s, es[..|es| - 1], t);
      StepNeverReturnsToPending(Exec(s, es[..|es| - 1]), es[|es| - 1], t);
    }
  }

  lemma WorkLosesSuccess(db: Database, th: Thread, call: Call, t: Trade)
    requires Working(th.pc) && CopyInv(db, th) && t in db.orders && db.orders[t].status.Success?
    ensures t in Work(db, th, call).0.orders
    ensures !Work(db, th, call).0.orders[t].status.Success? <==> th.pc.WriteExpire? && th.trade == t && call.Fine?
  {
  }

  /** Success itself is not final.  A step takes an order out of success exactly when it is the saving step of an
      expiry handler for that order: sessionExpired logs a non-pending status and goes on. */
  lemma SuccessLostOnlyToExpiry(s: State, e: Event, t: Trade)
    requires Inv(s) && t in s.db.orders && s.db.orders[t].status.Success?
    ensures t in Step(s, e).db.orders
    ensures !Step(s, e).db.orders[t].status.Success? <==>
            e.Run? && e.i < |s.threads| && s.threads[e.i].pc.WriteExpire? && s.threads[e.i].trade == t && e.call.Fine?
  {
    if e.Run? && Enabled(s, e.i) && Working(s.threads[e.i].pc) {
      assert CopyInv(s.db, s.threads[e.i]);
      WorkLosesSuccess(s.db, s.threads[e.i], e.call, t);
    }
  }

  // ---------- progress ----------

  /** In every reachable state with an unfinished handler some handler can step, although a creator may be
      waiting for an order mutex while it holds createLock. */
  lemma NeverStuck(s: State, es: seq<Event>, i: nat)
    requires Initial(s) && i < |Exec(s, es).threads| && !Exec(s, es).threads[i].pc.Done?
    ensures exists j: nat :: Enabled(Exec(s, es), j)
  {
    RunsKeepInv(s, es);
    var z := Exec(s, es);
    if !Enabled(z, i) {
      var waiting := if z.threads[i].pc.WantCreate? then z.createOwner.value else i;
      if !Enabled(z, waiting) {
        var m := z.threads[waiting].pc.m;
        assert Enabled(z, z.owners[m]);
      }
    }
  }

  function Rank(pc: Pc): nat {
    match pc
    case Start => 11 case WantCreate => 10 case Recheck => 9 case Publish(_) => 8 case Acquire(_, _) => 7
    case Leave => 6 case Enter => 5 case Settle => 4 case Mark(_) => 4 case ReadExpire => 4
    case Credit(_) => 3 case WriteExpire(_) => 3 case Exit => 2 case Unlock(_) => 1 case Done => 0
  }

  /** Shared-state accesses the handlers have left, at most. */
  function Remaining(threads: seq<Thread>): nat {
    if threads == [] then 0 else Rank(threads[0].pc) + Remaining(threads[1..])
  }

  lemma {:induction false} RemainingAfterUpdate(threads: seq<Thread>, i: nat, th: Thread)
    requires i < |threads|
    ensures Remaining(threads[i := th]) == Remaining(threads) - Rank(threads[i].pc) + Rank(th.pc)
  {
    if i == 0 {
      assert threads[i := th][1..] == threads[1..];
    } else {
      assert threads[i := th][1..] == threads[1..][i - 1 := th];
      RemainingAfterUpdate(threads[1..], i - 1, th);
    }
  }

  lemma WorkLowersRank(db: Database, th: Thread, call: Call)
    requires Working(th.pc)
    ensures Rank(Work(db, th, call).1) < Rank(th.pc)
  {
  }

  lemma StepLowersRank(s: State, i: nat, call: Call)
    requires Enabled(s, i)
    ensures Rank(RunThread(s, i, call).threads[i].pc) < Rank(s.threads[i].pc)
  {
    if Working(s.threads[i].pc) {
      WorkLowersRank(s.db, s.threads[i], call);
    }
  }

  lemma StepUsesRemaining(s: State, i: nat, call: Call)
    requires Enabled(s, i)
    ensures Remaining(RunThread(s, i, call).threads) < Remaining(s.threads)
  {
    ThreadStepEffect(s, i, call);
    StepLowersRank(s, i, call);
    RemainingAfterUpdate(s.threads, i, RunThread(s, i, call).threads[i]);
  }

  /** How many events of a run were thread steps that took effect. */
  function StepsTaken(s: State, es: seq<Event>): nat {
    if es == [] then 0
    else
      var init, e := es[..|es| - 1], es[|es| - 1];
      StepsTaken(s, init) + if e.Run? && Enabled(Exec(s, init), e.i) then 1 else 0
  }

  lemma {:induction false} RunsAreBounded(s: State, es: seq<Event>)
    ensures StepsTaken(s, es) + Remaining(Exec(s, es).threads) <= Remaining(s.threads)
  {
    if es != [] {
      var init, e := es[..|es| - 1], es[|es| - 1];
      RunsAreBounded(s, init);
      if e.Run? && Enabled(Exec(s, init), e.i) { StepUsesRemaining(Exec(s, init), e.i, e.call); }
    }
  }

  lemma RunUsesRemaining(s: State, es: seq<Event>, j: nat)
    requires Enabled(Exec(s, es), j)
    ensures Remaining(Exec(s, es + [Run(j, Fine)]).threads) < Remaining(Exec(s, es).threads)
  {
    assert (es + [Run(j, Fine)])[..|es|] == es;
    StepUsesRemaining(Exec(s, es), j, Fine);
  }

  ghost predicate AllDone(s: State) {
    forall i :: 0 <= i < |s.threads| ==> s.threads[i].pc.Done?
  }

  lemma NextToRun(s: State, es: seq<Event>) returns (j: nat)
    requires Initial(s) && !AllDone(Exec(s, es))
    ensures Remaining(Exec(s, es + [Run(j, Fine)]).threads) < Remaining(Exec(s, es).threads)
  {
    var i :| 0 <= i < |Exec(s, es).threads| && !Exec(s, es).threads[i].pc.Done?;
    NeverStuck(s, es, i);
    j :| Enabled(Exec(s, es), j);
    RunUsesRemaining(s, es, j);
  }

  lemma Regrouped(es: seq<Event>, e: Event, rest: seq<Event>)
    ensures es + ([e] + rest) == es + [e] + rest
  {
  }

  /** Whatever has happened so far, the handlers can all still finish. */
  lemma {:induction false} EveryRunCanFinish(s: State, es: seq<Event>) returns (more: seq<Event>)
    requires Initial(s)
    ensures AllDone(Exec(s, es + more))
    decreases Remaining(Exec(s, es).threads)
  {
    if AllDone(Exec(s, es)) {
      more := [];
      assert es + more == es;
    } else {
      var j := NextToRun(s, es);
      var longer := es + [Run(j, Fine)];
      var rest := EveryRunCanFinish(s, longer);
      more := [Run(j, Fine)] + rest;
      Regrouped(es, Run(j, Fine), rest);
    }
  }
}
