/** Billing of a relayed request: pre-consume, settle, refund, on a wallet or a subscription and on a token. A database
    write that may fail takes its outcome as a parameter. */
module BillingSession {
  import opened Options

  /** The shared balances: what a user's wallet and token still hold, what a subscription has used (total 0: no limit). */
  datatype Ledger = Ledger(wallet: int, token: int, used: int, total: int)

  datatype Funding = Wallet | Subscription

  /** `account` is bookkeeping for the statements below; no operation reads it. */
  datatype Session = Session(
    funding: Funding, playground: bool, pre: int, tokenConsumed: int, consumed: int,
    fundingSettled: bool, settled: bool, refunded: bool, inFlight: bool, account: Account)

  /** The actual quota of the settlement that took effect, whether it reached the token, and whether a refund reached
      the funding and the token. */
  datatype Account = Account(paid: Option<int>, tokenPaid: bool, returned: bool, tokenReturned: bool)

  /** Which writes of a pre-consumption succeed. */
  datatype Writes = Writes(token: bool, fund: bool, rollback: bool)

  /** One try of a subscription refund. The amount and the refunded mark are committed separately: a try can be
      rejected, commit the amount only, or commit both. */
  datatype Attempt = Rejected | AmountOnly | Complete

  const MAX_ATTEMPTS: nat := 3

  // ---------- the operations ----------

  /** PostConsumeUserSubscriptionDelta. */
  function Adjusted(l: Ledger, delta: int): Option<Ledger> {
    var used := if l.used + delta < 0 then 0 else l.used + delta;
    if l.total > 0 && used > l.total then None else Some(l.(used := used))
  }

  function TokenSpent(l: Ledger, playground: bool, amount: int): Ledger {
    if playground then l else l.(token := l.token - amount)
  }

  /** FundingSource.PreConsume: the ledger and what was consumed. */
  function FundPreConsume(l: Ledger, funding: Funding, effective: int, ok: bool): Option<(Ledger, int)> {
    match funding
    case Wallet =>
      if effective <= 0 then Some((l, 0))
      else if !ok then None
      else Some((l.(wallet := l.wallet - effective), effective))
    case Subscription =>
      if !ok || (l.total > 0 && l.total - l.used < effective) then None
      else Some((l.(used := l.used + effective), effective))
  }

  /** A subscription pre-consumes at least 1, and is never trusted. */
  function Effective(funding: Funding, quota: int, trusted: bool): int {
    match funding
    case Wallet => if trusted then 0 else quota
    case Subscription => if quota <= 0 then 1 else quota
  }

  function Begin(l: Ledger, funding: Funding, playground: bool, quota: int, trusted: bool, w: Writes)
    : (Ledger, Option<Session>)
  {
    var effective := Effective(funding, quota, trusted);
    var tokens := if effective > 0 then effective else 0;
    if tokens > 0 && !w.token then (l, None)
    else
      var spent := TokenSpent(l, playground, tokens);
      match FundPreConsume(spent, funding, effective, w.fund)
      case None => (if w.rollback then TokenSpent(spent, playground, -tokens) else spent, None)
      case Some((after, consumed)) =>
        (after, Some(Session(funding, playground, effective, tokens, consumed, false, false, false, false,
                             Account(None, false, false, false))))
  }

  /** FundingSource.Settle. */
  function FundSettle(l: Ledger, funding: Funding, delta: int, ok: bool): Option<Ledger> {
    if !ok then None
    else match funding
      case Wallet => Some(l.(wallet := l.wallet - delta))
      case Subscription => Adjusted(l, delta)
  }

  function Settle(l: Ledger, s: Session, actual: int, fundOk: bool, tokenOk: bool): (Ledger, Session) {
    var delta := actual - s.pre;
    if s.settled then (l, s)
    else if delta == 0 then (l, s.(settled := true, account := s.account.(paid := Some(actual), tokenPaid := true)))
    else
      match if s.fundingSettled then Some(l) else FundSettle(l, s.funding, delta, fundOk)
      case None => (l, s)
      case Some(after) =>
        (if tokenOk then TokenSpent(after, s.playground, delta) else after,
         s.(fundingSettled := true, settled := true, account := s.account.(paid := Some(actual), tokenPaid := tokenOk)))
  }

  predicate NeedsRefund(s: Session) {
    !(s.settled || s.refunded || s.fundingSettled) && (s.tokenConsumed > 0 || (s.funding.Subscription? && s.consumed > 0))
  }

  /** Refund only starts the refund; it runs later. */
  function Refund(s: Session): Session {
    if s.settled || s.refunded || !NeedsRefund(s) then s else s.(refunded := true, inFlight := true)
  }

  /** refundWithRetry over RefundSubscriptionPreConsume: the ledger, and whether the record got its mark. */
  function Retried(l: Ledger, amount: int, tries: seq<Attempt>): (Ledger, bool)
    decreases |tries|
  {
    if tries == [] then (l, false)
    else if tries[0].Rejected? || Adjusted(l, -amount).None? then Retried(l, amount, tries[1..])
    else if tries[0].AmountOnly? then Retried(Adjusted(l, -amount).value, amount, tries[1..])
    else (Adjusted(l, -amount).value, true)
  }

  function FundRefund(l: Ledger, s: Session, fundOk: bool, tries: seq<Attempt>): (Ledger, bool) {
    if s.consumed <= 0 then (l, true)
    else match s.funding
      case Wallet => (if fundOk then l.(wallet := l.wallet + s.consumed) else l, fundOk)
      case Subscription => Retried(l, s.consumed, tries)
  }

  /** The goroutine that Refund starts. */
  function RunRefund(l: Ledger, s: Session, fundOk: bool, tries: seq<Attempt>, tokenOk: bool): (Ledger, Session) {
    if !s.inFlight then (l, s)
    else
      var (after, returned) := FundRefund(l, s, fundOk, tries);
      (if s.tokenConsumed > 0 && tokenOk then TokenSpent(after, s.playground, -s.tokenConsumed) else after,
       s.(inFlight := false, account := s.account.(returned := returned, tokenReturned := tokenOk)))
  }

  // ---------- the source's objects ----------

  class Bank {
    var ledger: Ledger

    constructor (ledger: Ledger)
      ensures this.ledger == ledger
    {
      this.ledger := ledger;
    }

    /** PostConsumeUserSubscriptionDelta as a transaction. */
    method AdjustSubscription(delta: int) returns (ok: bool)
      modifies this
      ensures ok == Adjusted(old(ledger), delta).Some?
      ensures ledger == if ok then Adjusted(old(ledger), delta).value else old(ledger)
    {
      var newUsed := ledger.used + delta;
      if newUsed < 0 {
        newUsed := 0;
      }
      if ledger.total > 0 && newUsed > ledger.total {
        return false;
      }
      ledger := ledger.(used := newUsed);
      ok := true;
    }

    method RefundWithRetry(amount: int, tries: seq<Attempt>) returns (ok: bool)
      requires |tries| == MAX_ATTEMPTS
      modifies this
      ensures (ledger, ok) == Retried(old(ledger), amount, tries)
    {
      var i := 0;
      while i < MAX_ATTEMPTS
        invariant 0 <= i <= MAX_ATTEMPTS
        invariant Retried(ledger, amount, tries[i..]) == Retried(old(ledger), amount, tries)
      {
        assert tries[i..][0] == tries[i] && tries[i..][1..] == tries[i + 1..];
        if !tries[i].Rejected? {
          var committed := AdjustSubscription(-amount);
          if committed && tries[i].Complete? {
            return true;
          }
        }
        i := i + 1;
      }
      ok := false;
    }
  }

  class Billing {
    const bank: Bank
    var s: Session

    /** A successful pre-consumption. */
    constructor (bank: Bank, s: Session)
      ensures this.bank == bank && this.s == s
    {
      this.bank := bank;
      this.s := s;
    }

    /** NewBillingSession for one funding source: preConsume with its rollback. */
    static method Open(bank: Bank, funding: Funding, playground: bool, quota: int, trusted: bool, w: Writes)
      returns (b: Billing?)
      modifies bank
      ensures (bank.ledger, if b == null then None else Some(b.s)) ==
              Begin(old(bank.ledger), funding, playground, quota, trusted, w)
      ensures b != null ==> fresh(b) && b.bank == bank
    {
      b := null;
      var effective := Effective(funding, quota, trusted);
      var tokenConsumed := 0;
      if effective > 0 {
        if !w.token {
          return;
        }
        bank.ledger := TokenSpent(bank.ledger, playground, effective);
        tokenConsumed := effective;
      }
      match FundPreConsume(bank.ledger, funding, effective, w.fund) {
        case None =>
          if tokenConsumed > 0 && !playground && w.rollback {
            bank.ledger := bank.ledger.(token := bank.ledger.token + tokenConsumed);
          }
        case Some((after, consumed)) =>
          bank.ledger := after;
          b := new Billing(bank, Session(funding, playground, effective, tokenConsumed, consumed, false, false, false,
                                         false, Account(None, false, false, false)));
      }
    }

    method SettleActual(actual: int, fundOk: bool, tokenOk: bool) returns (ok: bool)
      modifies this, bank
      ensures (bank.ledger, s) == Settle(old(bank.ledger), old(s), actual, fundOk, tokenOk)
      ensures ok <==> old(s).settled || (s.settled && (actual == s.pre || s.playground || tokenOk))
    {
      if s.settled {
        return true;
      }
      var delta := actual - s.pre;
      if delta == 0 {
        s := s.(settled := true, account := s.account.(paid := Some(actual), tokenPaid := true));
        return true;
      }
      if !s.fundingSettled {
        match FundSettle(bank.ledger, s.funding, delta, fundOk) {
          case None => return false;
          case Some(after) => bank.ledger := after;
        }
        s := s.(fundingSettled := true);
      }
      if !s.playground && tokenOk {
        bank.ledger := bank.ledger.(token := bank.ledger.token - delta);
      }
      s := s.(settled := true, account := s.account.(paid := Some(actual), tokenPaid := tokenOk));
      ok := s.playground || tokenOk;
    }

    method StartRefund()
      modifies this
      ensures s == Refund(old(s))
    {
      if s.settled || s.refunded || !NeedsRefund(s) {
        return;
      }
      s := s.(refunded := true, inFlight := true);
    }

    method FinishRefund(fundOk: bool, tries: seq<Attempt>, tokenOk: bool)
      requires |tries| == MAX_ATTEMPTS
      modifies this, bank
      ensures (bank.ledger, s) == RunRefund(old(bank.ledger), old(s), fundOk, tries, tokenOk)
    {
      if !s.inFlight {
        return;
      }
      var returned := true;
      if s.consumed > 0 {
        if s.funding.Wallet? {
          if fundOk {
            bank.ledger := bank.ledger.(wallet := bank.ledger.wallet + s.consumed);
          }
          returned := fundOk;
        } else {
          returned := bank.RefundWithRetry(s.consumed, tries);
        }
      }
      if s.tokenConsumed > 0 && !s.playground && tokenOk {
        bank.ledger := bank.ledger.(token := bank.ledger.token + s.tokenConsumed);
      }
      s := s.(inFlight := false, account := s.account.(returned := returned, tokenReturned := tokenOk));
    }
  }

  // ---------- the choice of the source ----------

  datatype Preference = SubscriptionOnly | WalletOnly | WalletFirst | SubscriptionFirst

  /** The balances after an attempt to open, the session, and whether it failed for want of quota. */
  datatype Opening = Opening(ledger: Ledger, session: Option<Session>, insufficient: bool)

  /** What one request brings: its quota, and what it reads. `balance` is the wallet as read (None: the query fails),
      `active` whether a subscription is found (None: the query fails). */
  datatype Request = Request(playground: bool, quota: int, trusted: bool, balance: Option<int>, active: Option<bool>)

  predicate WalletCovers(r: Request) {
    r.balance.Some? && r.balance.value > 0 && r.balance.value - r.quota >= 0
  }

  function TryWallet(l: Ledger, r: Request, w: Writes): Opening {
    if r.balance.None? then Opening(l, None, false)
    else if !WalletCovers(r) then Opening(l, None, true)
    else var (after, s) := Begin(l, Wallet, r.playground, r.quota, r.trusted, w); Opening(after, s, false)
  }

  /** `none` says that the store finds no active subscription when it comes to consume from it. */
  function TrySubscription(l: Ledger, r: Request, w: Writes, none: bool): Opening {
    var (after, s) := Begin(l, Subscription, r.playground, r.quota, r.trusted, w.(fund := w.fund && !none));
    var short := l.total > 0 && l.total - l.used < Effective(Subscription, r.quota, r.trusted);
    Opening(after, s, s.None? && w.token && (none || short))
  }

  /** NewBillingSession: the second source is tried only if the first lacks quota. */
  function OpenByPreference(l: Ledger, pref: Preference, r: Request, walletWrites: Writes, subWrites: Writes, none: bool)
    : Opening
  {
    match pref
    case SubscriptionOnly => TrySubscription(l, r, subWrites, none)
    case WalletOnly => TryWallet(l, r, walletWrites)
    case WalletFirst =>
      var first := TryWallet(l, r, walletWrites);
      if first.session.None? && first.insufficient then TrySubscription(first.ledger, r, subWrites, none) else first
    case SubscriptionFirst =>
      if r.active.None? then Opening(l, None, false)
      else if !r.active.value then TryWallet(l, r, walletWrites)
      else
        var first := TrySubscription(l, r, subWrites, none);
        if first.session.None? && first.insufficient then TryWallet(first.ledger, r, walletWrites) else first
  }

  // ---------- many sessions on one ledger ----------

  datatype World = World(ledger: Ledger, sessions: seq<Session>)

  datatype Event =
    | Opens(funding: Funding, playground: bool, quota: int, trusted: bool, w: Writes)
    | Settles(i: nat, actual: int, fundOk: bool, tokenOk: bool)
    | Refunds(i: nat)
    | RefundRuns(i: nat, fundWritten: bool, tries: seq<Attempt>, tokenWritten: bool)
    | TopsUp(amount: int)
    | Resets

  function Step(x: World, e: Event): World {
    match e
    case Opens(funding, playground, quota, trusted, w) =>
      var (l, s) := Begin(x.ledger, funding, playground, quota, trusted, w);
      World(l, if s.None? then x.sessions else x.sessions + [s.value])
    case Settles(i, actual, fundOk, tokenOk) =>
      if i >= |x.sessions| then x
      else var (l, s) := Settle(x.ledger, x.sessions[i], actual, fundOk, tokenOk); World(l, x.sessions[i := s])
    case Refunds(i) => if i >= |x.sessions| then x else x.(sessions := x.sessions[i := Refund(x.sessions[i])])
    case RefundRuns(i, fundOk, tries, tokenOk) =>
      if i >= |x.sessions| then x
      else var (l, s) := RunRefund(x.ledger, x.sessions[i], fundOk, tries, tokenOk); World(l, x.sessions[i := s])
    case TopsUp(amount) => x.(ledger := x.ledger.(wallet := x.ledger.wallet + amount))
    case Resets => x.(ledger := x.ledger.(used := 0))
  }

  function Exec(x: World, es: seq<Event>): World {
    if es == [] then x else Step(Exec(x, es[..|es| - 1]), es[|es| - 1])
  }

  /** What a session costs its funding source: the actual quota once settled, nothing once refunded, and what was
      pre-consumed until then. A settlement that comes with a refund only adds the difference. */
  function Charge(s: Session): int {
    var held := if s.pre > 0 && !s.account.returned then s.pre else 0;
    if s.account.paid.Some? then held + s.account.paid.value - s.pre else held
  }

  function WalletCharge(s: Session): int {
    if s.funding.Wallet? then Charge(s) else 0
  }

  function SubscriptionCharge(s: Session): int {
    if s.funding.Subscription? then Charge(s) else 0
  }

  function TokenCharge(s: Session): int {
    if s.playground then 0
    else
      var held := if s.pre > 0 && !s.account.tokenReturned then s.pre else 0;
      if s.account.paid.Some? && s.account.tokenPaid then held + s.account.paid.value - s.pre else held
  }

  function Sum(ss: seq<Session>, charge: Session -> int): int {
    if ss == [] then 0 else Sum(ss[..|ss| - 1], charge) + charge(ss[|ss| - 1])
  }

  lemma SumAppend(ss: seq<Session>, s: Session, charge: Session -> int)
    ensures Sum(ss + [s], charge) == Sum(ss, charge) + charge(s)
  {
    assert (ss + [s])[..|ss|] == ss;
  }

  lemma {:induction false} SumUpdate(ss: seq<Session>, i: nat, s: Session, charge: Session -> int)
    requires i < |ss|
    ensures Sum(ss[i := s], charge) == Sum(ss, charge) - charge(ss[i]) + charge(s)
  {
    var last := |ss| - 1;
    if i == last {
      assert ss[i := s][..last] == ss[..last];
    } else {
      assert ss[i := s][..last] == ss[..last][i := s];
      SumUpdate(ss[..last], i, s, charge);
    }
  }

  /** What every session keeps: the funding is only settled together with the session, and a refund leaves no second
      one to come. */
  predicate Coherent(s: Session) {
    && s.consumed == s.tokenConsumed == (if s.pre > 0 then s.pre else 0)
    && (s.funding.Subscription? ==> s.pre > 0)
    && (s.settled <==> s.account.paid.Some?)
    && (s.fundingSettled ==> s.settled)
    && (s.refunded ==> s.pre > 0)
    && (s.inFlight ==> s.refunded && !s.account.returned && !s.account.tokenReturned)
    && (s.account.returned || s.account.tokenReturned ==> s.refunded)
    && (!s.settled ==> !s.account.tokenPaid)
  }

  predicate AllCoherent(ss: seq<Session>) {
    forall i :: 0 <= i < |ss| ==> Coherent(ss[i])
  }

  /** A subscription's usage is within its total. */
  predicate InLimit(l: Ledger) {
    l.used >= 0 && (l.total > 0 ==> l.used <= l.total)
  }

  lemma BeginMoves(l: Ledger, funding: Funding, playground: bool, quota: int, trusted: bool, w: Writes)
    ensures var (after, s) := Begin(l, funding, playground, quota, trusted, w);
            && after.total == l.total
            && (InLimit(l) ==> InLimit(after))
            && (s.None? ==> after.wallet == l.wallet && after.used == l.used)
            && (s.None? && w.rollback ==> after == l)
            && (s.Some? ==>
                 && Coherent(s.value) && !s.value.refunded && !s.value.settled
                 && after.wallet + WalletCharge(s.value) == l.wallet
                 && after.token + TokenCharge(s.value) == l.token
                 && after.used - SubscriptionCharge(s.value) == l.used)
  {
  }

  /** What a session costs once it is open: nothing for a trusted wallet, otherwise the quota asked for, and at least 1
      on a subscription, trusted or not; the token pays the same unless the request comes from the playground. */
  lemma OpenCharges(l: Ledger, funding: Funding, playground: bool, quota: int, trusted: bool, w: Writes)
    requires Begin(l, funding, playground, quota, trusted, w).1.Some?
    ensures var (after, s) := Begin(l, funding, playground, quota, trusted, w);
            var least := if funding.Subscription? then 1 else 0;
            var cost := if funding.Wallet? && trusted then 0 else if quota < least then least else quota;
            && Charge(s.value) == cost && TokenCharge(s.value) == (if playground then 0 else cost)
            && after == l.(wallet := l.wallet - (if funding.Wallet? then cost else 0),
                           used := l.used + (if funding.Subscription? then cost else 0),
                           token := l.token - (if playground then 0 else cost))
  {
  }

  /** The balances moved by the charge of the session that was opened, if any, and by nothing else; the token up to a
      failed roll-back. */
  predicate MovedByCharge(l: Ledger, o: Opening, rolledBack: bool) {
    match o.session
    case None => o.ledger.wallet == l.wallet && o.ledger.used == l.used && (rolledBack ==> o.ledger == l)
    case Some(s) =>
      && Coherent(s) && !s.settled && !s.refunded
      && o.ledger.wallet == l.wallet - WalletCharge(s) && o.ledger.used == l.used + SubscriptionCharge(s)
      && (rolledBack ==> o.ledger.token == l.token - TokenCharge(s))
  }

  lemma WalletMoves(l: Ledger, r: Request, w: Writes)
    ensures var o := TryWallet(l, r, w);
            MovedByCharge(l, o, w.rollback) && (o.session.Some? ==> o.session.value.funding.Wallet? && WalletCovers(r))
  {
    BeginMoves(l, Wallet, r.playground, r.quota, r.trusted, w);
  }

  lemma SubscriptionMoves(l: Ledger, r: Request, w: Writes, none: bool)
    ensures var o := TrySubscription(l, r, w, none);
            MovedByCharge(l, o, w.rollback) && (o.session.Some? ==> o.session.value.funding.Subscription?)
  {
    BeginMoves(l, Subscription, r.playground, r.quota, r.trusted, w.(fund := w.fund && !none));
  }

  /** Whatever is preferred, at most one source is charged, and exactly by the session's own charge: the wallet only if
      it covers the quota, and not under SubscriptionOnly; a subscription not under WalletOnly, and under WalletFirst
      only if the wallet does not cover the quota. */
  lemma OneSourceIsCharged(l: Ledger, pref: Preference, r: Request, ww: Writes, sw: Writes, none: bool)
    ensures var o := OpenByPreference(l, pref, r, ww, sw, none);
            && MovedByCharge(l, o, ww.rollback && sw.rollback)
            && (o.session.Some? ==>
                 if o.session.value.funding.Wallet? then WalletCovers(r) && !pref.SubscriptionOnly?
                 else !pref.WalletOnly? && (pref.WalletFirst? ==> !WalletCovers(r)))
  {
    WalletMoves(l, r, ww);
    SubscriptionMoves(l, r, sw, none);
    WalletMoves(TrySubscription(l, r, sw, none).ledger, r, ww);
    SubscriptionMoves(TryWallet(l, r, ww).ledger, r, sw, none);
  }

  /** A pre-consumption that fails leaves the ledger as it was if and only if no token was taken or the roll-back
      succeeds. */
  lemma FailureIsAtomicIff(l: Ledger, funding: Funding, playground: bool, quota: int, trusted: bool, w: Writes)
    requires Begin(l, funding, playground, quota, trusted, w).1.None?
    ensures Begin(l, funding, playground, quota, trusted, w).0 == l <==>
              w.rollback || !w.token || playground || Effective(funding, quota, trusted) <= 0
  {
  }

  lemma SettleMoves(l: Ledger, s: Session, actual: int, fundOk: bool, tokenOk: bool)
    requires Coherent(s)
    ensures var (after, t) := Settle(l, s, actual, fundOk, tokenOk);
            && Coherent(t)
            && after.total == l.total
            && after.wallet + WalletCharge(t) == l.wallet + WalletCharge(s)
            && after.token + TokenCharge(t) == l.token + TokenCharge(s)
  {
  }

  lemma {:induction false} RetriedKeeps(l: Ledger, amount: int, tries: seq<Attempt>)
    ensures var after := Retried(l, amount, tries).0;
            after.wallet == l.wallet && after.token == l.token && after.total == l.total
    decreases |tries|
  {
    if tries != [] {
      RetriedKeeps(l, amount, tries[1..]);
      if Adjusted(l, -amount).Some? {
        RetriedKeeps(Adjusted(l, -amount).value, amount, tries[1..]);
      }
    }
  }

  lemma RunRefundMoves(l: Ledger, s: Session, fundOk: bool, tries: seq<Attempt>, tokenOk: bool)
    requires Coherent(s)
    ensures var (after, t) := RunRefund(l, s, fundOk, tries, tokenOk);
            && Coherent(t)
            && after.total == l.total
            && after.wallet + WalletCharge(t) == l.wallet + WalletCharge(s)
            && after.token + TokenCharge(t) == l.token + TokenCharge(s)
  {
    RetriedKeeps(l, s.consumed, tries);
  }

  // ---------- when an operation takes effect, on the balances ----------

  function Least(n: int): int {
    if n < 0 then 0 else n
  }

  /** The usage fits into the total, if there is one. */
  predicate Fits(l: Ledger, used: int) {
    l.total <= 0 || used <= l.total
  }

  /** A session opens if and only if the writes it needs succeed and, on a subscription, the quota fits.  What it takes
      is what it asks for: nothing for a trusted wallet, at least 1 on a subscription. */
  lemma OpensIff(l: Ledger, funding: Funding, playground: bool, quota: int, trusted: bool, w: Writes)
    ensures var cost := if funding.Wallet? then (if trusted then 0 else Least(quota)) else if quota < 1 then 1 else quota;
            var (after, s) := Begin(l, funding, playground, quota, trusted, w);
            && (s.Some? <==>
                 if funding.Wallet? then cost == 0 || (w.token && w.fund)
                 else w.token && w.fund && Fits(l, l.used + cost))
            && (s.Some? ==> after == l.(wallet := l.wallet - (if funding.Wallet? then cost else 0),
                                        used := l.used + (if funding.Wallet? then 0 else cost),
                                        token := l.token - (if playground then 0 else cost)))
            && (s.None? ==> after == l.(token := after.token))
            && (s.None? && after.token != l.token ==> w.token && !w.rollback && after.token == l.token - cost)
  {
  }

  /** A settlement takes effect if and only if there is no difference, or its funding write succeeds and, on a
      subscription, the usage still fits.  Then wallet or usage and the token have moved by exactly the difference,
      whichever way it goes; a usage stops at zero, and the token stays if its own write fails.  Otherwise nothing
      changes. */
  lemma SettlesIff(l: Ledger, s: Session, actual: int, fundOk: bool, tokenOk: bool)
    requires Coherent(s) && !s.settled
    ensures var d := actual - s.pre;
            var (after, t) := Settle(l, s, actual, fundOk, tokenOk);
            && (t.settled <==> d == 0 || (fundOk && (s.funding.Wallet? || Fits(l, Least(l.used + d)))))
            && (!t.settled ==> after == l && t == s)
            && (t.settled && d != 0 ==>
                 after == l.(wallet := if s.funding.Wallet? then l.wallet - d else l.wallet,
                             used := if s.funding.Wallet? then l.used else Least(l.used + d),
                             token := if s.playground || !tokenOk then l.token else l.token - d))
            && (d == 0 ==> after == l)
  {
  }

  /** A session is settled once: later settlements change nothing. */
  lemma SettledOnce(l: Ledger, s: Session, actual: int, fundOk: bool, tokenOk: bool)
    requires s.settled
    ensures Settle(l, s, actual, fundOk, tokenOk) == (l, s)
  {
  }

  /** A refund starts if and only if the session took something and is neither settled nor refunded already. */
  lemma RefundStartsIff(s: Session)
    requires Coherent(s) && !s.inFlight
    ensures Refund(s).inFlight <==> s.pre > 0 && !s.settled && !s.refunded
    ensures Refund(s).inFlight ==> Refund(s).refunded
    ensures !Refund(s).inFlight ==> Refund(s) == s
  {
  }

  /** When it runs, a wallet gets back exactly what was taken from it, if the write succeeds, and so does the token;
      a usage loses what the first complete try takes off, down to zero. */
  lemma RefundGivesBack(l: Ledger, s: Session, fundOk: bool, tries: seq<Attempt>, tokenOk: bool)
    requires Coherent(s) && s.inFlight
    ensures var (after, t) := RunRefund(l, s, fundOk, tries, tokenOk);
            && !t.inFlight
            && after.token == l.token + (if s.playground || !tokenOk then 0 else s.pre)
            && (s.funding.Wallet? ==> after.wallet == l.wallet + (if fundOk then s.pre else 0) && after.used == l.used)
            && (s.funding.Subscription? ==> after.wallet == l.wallet)
            && (s.funding.Subscription? && InLimit(l) && tries != [] && tries[0].Complete? ==>
                 after.used == Least(l.used - s.pre))
    ensures var (after, t) := RunRefund(l, s.(inFlight := false), fundOk, tries, tokenOk); after == l
  {
    if s.funding.Subscription? { RetriedKeeps(l, s.consumed, tries); }
  }

  /** The same among other sessions: an opening adds a session, a settlement settles its own, and a refund starts, under
      the conditions above, and no other session changes. */
  lemma EventsTakeEffect(x: World, e: Event)
    requires AllCoherent(x.sessions)
    ensures e.Opens? && e.funding.Wallet? ==>
              (|Step(x, e).sessions| == |x.sessions| + 1 <==> e.trusted || e.quota <= 0 || (e.w.token && e.w.fund))
    ensures e.Settles? && e.i < |x.sessions| && !x.sessions[e.i].settled ==>
              var s, d := x.sessions[e.i], e.actual - x.sessions[e.i].pre;
              && |Step(x, e).sessions| == |x.sessions|
              && (Step(x, e).sessions[e.i].settled <==>
                   d == 0 || (e.fundOk && (s.funding.Wallet? || Fits(x.ledger, Least(x.ledger.used + d)))))
              && (s.funding.Wallet? && Step(x, e).sessions[e.i].settled ==>
                   Step(x, e).ledger.wallet == x.ledger.wallet - d)
    ensures e.Refunds? && e.i < |x.sessions| && !x.sessions[e.i].inFlight ==>
              var s := x.sessions[e.i];
              && |Step(x, e).sessions| == |x.sessions|
              && (Step(x, e).sessions[e.i].inFlight <==> s.pre > 0 && !s.settled && !s.refunded)
    ensures e.RefundRuns? && e.i < |x.sessions| && x.sessions[e.i].inFlight && x.sessions[e.i].funding.Wallet? ==>
              Step(x, e).ledger.wallet == x.ledger.wallet + if e.fundWritten then x.sessions[e.i].pre else 0
  {
    match e
    case Opens(funding, playground, quota, trusted, w) => OpensIff(x.ledger, funding, playground, quota, trusted, w);
    case Settles(i, actual, fundOk, tokenOk) =>
      if i < |x.sessions| && !x.sessions[i].settled { SettlesIff(x.ledger, x.sessions[i], actual, fundOk, tokenOk); }
    case Refunds(i) =>
      if i < |x.sessions| && !x.sessions[i].inFlight { RefundStartsIff(x.sessions[i]); }
    case RefundRuns(i, fundOk, tries, tokenOk) =>
      if i < |x.sessions| && x.sessions[i].inFlight { RefundGivesBack(x.ledger, x.sessions[i], fundOk, tries, tokenOk); }
    case _ =>
  }

  // ---------- when a session opens, by preference ----------

  predicate WalletServes(r: Request, w: Writes) {
    && r.balance.Some? && r.balance.value > 0 && r.balance.value >= r.quota
    && (r.trusted || r.quota <= 0 || (w.token && w.fund))
  }

  predicate SubscriptionServes(l: Ledger, r: Request, w: Writes, none: bool) {
    !none && w.token && w.fund && Fits(l, l.used + if r.quota < 1 then 1 else r.quota)
  }

  /** The wallet was read and does not cover the quota. */
  predicate WalletShort(r: Request) {
    r.balance.Some? && (r.balance.value <= 0 || r.balance.value < r.quota)
  }

  /** There is no subscription to consume from, or it has no room. */
  predicate SubscriptionShort(l: Ledger, r: Request, w: Writes, none: bool) {
    w.token && (none || !Fits(l, l.used + if r.quota < 1 then 1 else r.quota))
  }

  lemma SubscriptionTried(l: Ledger, r: Request, w: Writes, none: bool)
    ensures var o := TrySubscription(l, r, w, none);
            && (o.session.Some? <==> SubscriptionServes(l, r, w, none))
            && (o.session.Some? ==> o.session.value.funding.Subscription?)
            && (o.session.None? ==> (o.insufficient <==> SubscriptionShort(l, r, w, none)))
  {
    OpensIff(l, Subscription, r.playground, r.quota, r.trusted, w.(fund := w.fund && !none));
  }

  lemma WalletTried(l: Ledger, r: Request, w: Writes)
    ensures var o := TryWallet(l, r, w);
            && (o.session.Some? <==> WalletServes(r, w))
            && (o.session.Some? ==> o.session.value.funding.Wallet?)
            && (o.session.None? ==> (o.insufficient <==> WalletShort(r)))
            && (o.insufficient ==> o.ledger == l)
  {
    OpensIff(l, Wallet, r.playground, r.quota, r.trusted, w);
  }

  /** Which requests get a session, and from which source: the preferred one if it serves, and the other only if the
      preferred one was short (or, for a subscription, there is none). */
  lemma OpensByPreferenceIff(l: Ledger, pref: Preference, r: Request, ww: Writes, sw: Writes, none: bool)
    ensures var o := OpenByPreference(l, pref, r, ww, sw, none);
            var sub := SubscriptionServes(l, r, sw, none);
            match pref
            case SubscriptionOnly => o.session.Some? <==> sub
            case WalletOnly => o.session.Some? <==> WalletServes(r, ww)
            case WalletFirst =>
              && (o.session.Some? <==> WalletServes(r, ww) || (WalletShort(r) && sub))
              && (o.session.Some? ==> (o.session.value.funding.Wallet? <==> WalletServes(r, ww)))
            case SubscriptionFirst =>
              var first := r.active == Some(true) && sub;
              var second := r.active == Some(false) || (r.active == Some(true) && SubscriptionShort(l, r, sw, none));
              && (o.session.Some? <==> first || (second && WalletServes(r, ww)))
              && (o.session.Some? ==> (o.session.value.funding.Subscription? <==> first))
  {
    WalletTried(l, r, ww);
    SubscriptionTried(l, r, sw, none);
    if pref.SubscriptionFirst? {
      WalletTried(TrySubscription(l, r, sw, none).ledger, r, ww);
    }
  }

  function Toppings(es: seq<Event>): int {
    if es == [] then 0
    else Toppings(es[..|es| - 1]) + if es[|es| - 1].TopsUp? then es[|es| - 1].amount else 0
  }

  lemma OpenConserves(x: World, funding: Funding, playground: bool, quota: int, trusted: bool, w: Writes)
    requires AllCoherent(x.sessions)
    ensures var y := Step(x, Opens(funding, playground, quota, trusted, w));
            && AllCoherent(y.sessions)
            && y.ledger.wallet + Sum(y.sessions, WalletCharge) == x.ledger.wallet + Sum(x.sessions, WalletCharge)
            && (w.rollback ==>
                 y.ledger.token + Sum(y.sessions, TokenCharge) == x.ledger.token + Sum(x.sessions, TokenCharge))
  {
    BeginMoves(x.ledger, funding, playground, quota, trusted, w);
    var s := Begin(x.ledger, funding, playground, quota, trusted, w).1;
    if s.Some? {
      SumAppend(x.sessions, s.value, WalletCharge);
      SumAppend(x.sessions, s.value, TokenCharge);
    }
  }

  lemma StepConserves(x: World, e: Event)
    requires AllCoherent(x.sessions)
    ensures AllCoherent(Step(x, e).sessions)
    ensures Step(x, e).ledger.wallet + Sum(Step(x, e).sessions, WalletCharge) ==
            x.ledger.wallet + Sum(x.sessions, WalletCharge) + if e.TopsUp? then e.amount else 0
    ensures !e.Opens? || e.w.rollback ==>
              Step(x, e).ledger.token + Sum(Step(x, e).sessions, TokenCharge) ==
              x.ledger.token + Sum(x.sessions, TokenCharge)
  {
    match e
    case Opens(funding, playground, quota, trusted, w) =>
      OpenConserves(x, funding, playground, quota, trusted, w);
    case Settles(i, actual, fundOk, tokenOk) =>
      if i < |x.sessions| {
        SettleMoves(x.ledger, x.sessions[i], actual, fundOk, tokenOk);
        BothSums(x.sessions, i, Settle(x.ledger, x.sessions[i], actual, fundOk, tokenOk).1);
      }
    case Refunds(i) =>
      if i < |x.sessions| {
        BothSums(x.sessions, i, Refund(x.sessions[i]));
      }
    case RefundRuns(i, fundOk, tries, tokenOk) =>
      if i < |x.sessions| {
        RunRefundMoves(x.ledger, x.sessions[i], fundOk, tries, tokenOk);
        BothSums(x.sessions, i, RunRefund(x.ledger, x.sessions[i], fundOk, tries, tokenOk).1);
      }
    case TopsUp(amount) =>
    case Resets =>
  }

  lemma BothSums(ss: seq<Session>, i: nat, s: Session)
    requires i < |ss|
    ensures Sum(ss[i := s], WalletCharge) == Sum(ss, WalletCharge) - WalletCharge(ss[i]) + WalletCharge(s)
    ensures Sum(ss[i := s], TokenCharge) == Sum(ss, TokenCharge) - TokenCharge(ss[i]) + TokenCharge(s)
  {
    SumUpdate(ss, i, s, WalletCharge);
    SumUpdate(ss, i, s, TokenCharge);
  }

  /** Over every interleaving of any number of sessions, with any writes failing, what left the wallet is the sum of
      the sessions' charges; and so for the token as long as no roll-back fails. */
  lemma {:induction false} RunsConserve(x: World, es: seq<Event>)
    requires AllCoherent(x.sessions)
    ensures AllCoherent(Exec(x, es).sessions)
    ensures Exec(x, es).ledger.wallet + Sum(Exec(x, es).sessions, WalletCharge) ==
            x.ledger.wallet + Sum(x.sessions, WalletCharge) + Toppings(es)
    ensures (forall e | e in es :: e.Opens? ==> e.w.rollback) ==>
              Exec(x, es).ledger.token + Sum(Exec(x, es).sessions, TokenCharge) ==
              x.ledger.token + Sum(x.sessions, TokenCharge)
  {
    if es != [] {
      var init, e := es[..|es| - 1], es[|es| - 1];
      RunsConserve(x, init);
      StepConserves(Exec(x, init), e);
      assert forall d | d in init :: d in es;
    }
  }

  // ---------- what a settlement costs in the end ----------

  /** A settlement is final, and a refund under way is all that can still change what the session costs. */
  lemma {:induction false} SettledStays(x: World, es: seq<Event>, i: nat)
    requires AllCoherent(x.sessions) && i < |x.sessions| && x.sessions[i].settled
    ensures i < |Exec(x, es).sessions|
    ensures var s, t := x.sessions[i], Exec(x, es).sessions[i];
            && t.settled && t.pre == s.pre && t.account.paid == s.account.paid && t.refunded == s.refunded
            && (!s.inFlight ==> !t.inFlight && t.account.returned == s.account.returned)
  {
    if es != [] { SettledStays(x, es[..|es| - 1], i); }
  }

  /** In every continuation the session costs the given quota. */
  ghost predicate CostsForGood(x: World, i: nat, actual: int) {
    forall es :: i < |Exec(x, es).sessions| ==> Charge(Exec(x, es).sessions[i]) == actual
  }

  lemma FinalCost(x: World, i: nat)
    requires AllCoherent(x.sessions) && i < |x.sessions| && x.sessions[i].settled
    requires x.sessions[i].pre >= 0 && !x.sessions[i].inFlight && !x.sessions[i].account.returned
    ensures CostsForGood(x, i, x.sessions[i].account.paid.value)
  {
    forall es ensures i < |Exec(x, es).sessions| ==>
                        Charge(Exec(x, es).sessions[i]) == x.sessions[i].account.paid.value {
      SettledStays(x, es, i);
    }
  }

  /** A refund that is under way can still succeed. */
  lemma RefundCanStillCome(x: World, i: nat)
    requires AllCoherent(x.sessions) && InLimit(x.ledger) && i < |x.sessions|
    requires x.sessions[i].settled && x.sessions[i].inFlight
    ensures i < |Exec(x, [RefundRuns(i, true, [Complete], true)]).sessions|
    ensures Charge(Exec(x, [RefundRuns(i, true, [Complete], true)]).sessions[i]) ==
            x.sessions[i].account.paid.value - x.sessions[i].pre
  {
    var s, e := x.sessions[i], RefundRuns(i, true, [Complete], true);
    assert [e][..0] == [] && Exec(x, []) == x;
    assert Exec(x, [e]) == Step(x, e);
    RetriedGivesBack(x.ledger, s.consumed, [Complete]);
  }

  /** Settling a session before any refund of it has run: it then costs its actual quota in every continuation if and
      only if its refund has not been started and its pre-consumption is not negative. */
  lemma SettleCostsActualIff(x: World, i: nat, actual: int, fundOk: bool, tokenOk: bool)
    requires AllCoherent(x.sessions) && InLimit(x.ledger) && i < |x.sessions| && !x.sessions[i].settled
    requires x.sessions[i].refunded ==> x.sessions[i].inFlight
    requires Step(x, Settles(i, actual, fundOk, tokenOk)).sessions[i].settled
    ensures CostsForGood(Step(x, Settles(i, actual, fundOk, tokenOk)), i, actual) <==>
              !x.sessions[i].refunded && x.sessions[i].pre >= 0
  {
    var s, y := x.sessions[i], Step(x, Settles(i, actual, fundOk, tokenOk));
    StepConserves(x, Settles(i, actual, fundOk, tokenOk));
    StepInLimit(x, Settles(i, actual, fundOk, tokenOk));
    SettleTakes(x.ledger, s, actual, fundOk, tokenOk);
    if !s.refunded && s.pre >= 0 {
      FinalCost(y, i);
    } else if s.pre < 0 {
      assert Exec(y, []) == y && Charge(Exec(y, []).sessions[i]) != actual;
    } else {
      RefundCanStillCome(y, i);
      var late := [RefundRuns(i, true, [Complete], true)];
      assert Charge(Exec(y, late).sessions[i]) != actual;
    }
  }

  lemma SettleTakes(l: Ledger, s: Session, actual: int, fundOk: bool, tokenOk: bool)
    requires Coherent(s) && !s.settled
    ensures var t := Settle(l, s, actual, fundOk, tokenOk).1;
            && (t.settled ==> t.account.paid == Some(actual))
            && t.pre == s.pre && t.inFlight == s.inFlight && t.refunded == s.refunded
            && t.account.returned == s.account.returned
  {
  }

  /** Settling it after its refund has run: it costs its actual quota in every continuation if and only if the refund
      did not reach the funding. */
  lemma SettleAfterRefundIff(x: World, i: nat, actual: int, fundOk: bool, tokenOk: bool)
    requires AllCoherent(x.sessions) && i < |x.sessions| && !x.sessions[i].settled
    requires x.sessions[i].refunded && !x.sessions[i].inFlight
    requires Step(x, Settles(i, actual, fundOk, tokenOk)).sessions[i].settled
    ensures CostsForGood(Step(x, Settles(i, actual, fundOk, tokenOk)), i, actual) <==> !x.sessions[i].account.returned
  {
    var s, y := x.sessions[i], Step(x, Settles(i, actual, fundOk, tokenOk));
    StepConserves(x, Settles(i, actual, fundOk, tokenOk));
    SettleTakes(x.ledger, s, actual, fundOk, tokenOk);
    if s.account.returned {
      assert Exec(y, []) == y && Charge(Exec(y, []).sessions[i]) != actual;
    } else {
      FinalCost(y, i);
    }
  }

  /** Such a session can come about: settling 120 after the refund of 50 has been given back charges 70. */
  lemma SettledAfterRefund()
    ensures var begun := Begin(Ledger(1000, 1000, 0, 0), Wallet, false, 50, false, Writes(true, true, true));
            var refunded := RunRefund(begun.0, Refund(begun.1.value), true, [], true);
            var settled := Settle(refunded.0, refunded.1, 120, true, true);
            settled.0.wallet == 1000 - 70 && Charge(settled.1) == 70
  {
  }

  /** Once a session is settled with no refund under way, nothing that happens later changes it: it is neither charged
      nor refunded a second time. */
  lemma {:induction false} SettledIsFinal(x: World, es: seq<Event>, i: nat)
    requires AllCoherent(x.sessions) && i < |x.sessions| && x.sessions[i].settled && !x.sessions[i].inFlight
    ensures i < |Exec(x, es).sessions| && Exec(x, es).sessions[i] == x.sessions[i]
  {
    if es != [] {
      SettledIsFinal(x, es[..|es| - 1], i);
    }
  }

  /** The same for a refund that has run, as long as the session is not settled afterwards. */
  lemma {:induction false} RefundedIsFinal(x: World, es: seq<Event>, i: nat)
    requires AllCoherent(x.sessions) && i < |x.sessions| && x.sessions[i].refunded && !x.sessions[i].inFlight
    requires forall e | e in es :: e.Settles? ==> e.i != i
    ensures i < |Exec(x, es).sessions| && Exec(x, es).sessions[i] == x.sessions[i]
  {
    if es != [] {
      assert forall e | e in es[..|es| - 1] :: e in es;
      RefundedIsFinal(x, es[..|es| - 1], i);
      assert es[|es| - 1] in es;
    }
  }

  // ---------- subscriptions ----------

  lemma {:induction false} RetriedInLimit(l: Ledger, amount: int, tries: seq<Attempt>)
    requires InLimit(l)
    ensures InLimit(Retried(l, amount, tries).0)
    decreases |tries|
  {
    if tries != [] {
      RetriedInLimit(l, amount, tries[1..]);
      if Adjusted(l, -amount).Some? {
        RetriedInLimit(Adjusted(l, -amount).value, amount, tries[1..]);
      }
    }
  }

  lemma StepInLimit(x: World, e: Event)
    requires InLimit(x.ledger) && AllCoherent(x.sessions)
    ensures InLimit(Step(x, e).ledger)
  {
    if e.Opens? {
      BeginMoves(x.ledger, e.funding, e.playground, e.quota, e.trusted, e.w);
    } else if e.RefundRuns? && e.i < |x.sessions| {
      RetriedInLimit(x.ledger, x.sessions[e.i].consumed, e.tries);
    }
  }

  /** A subscription's usage stays between zero and its total in every run, whatever fails. */
  lemma {:induction false} RunsStayInLimit(x: World, es: seq<Event>)
    requires InLimit(x.ledger) && AllCoherent(x.sessions)
    ensures InLimit(Exec(x, es).ledger)
  {
    if es != [] {
      RunsStayInLimit(x, es[..|es| - 1]);
      RunsConserve(x, es[..|es| - 1]);
      StepInLimit(Exec(x, es[..|es| - 1]), es[|es| - 1]);
    }
  }

  /** How many tries of a refund commit the amount: all up to and including the first complete one. */
  function Commits(tries: seq<Attempt>): nat
    decreases |tries|
  {
    if tries == [] then 0
    else match tries[0]
      case Rejected => Commits(tries[1..])
      case AmountOnly => 1 + Commits(tries[1..])
      case Complete => 1
  }

  lemma OneMoreCommit(n: nat, amount: int)
    requires amount > 0
    ensures (1 + n) * amount == amount + n * amount && n * amount >= 0
  {
  }

  /** The amount is given back once for every try that commits it, down to a usage of zero. */
  lemma {:induction false} RetriedGivesBack(l: Ledger, amount: int, tries: seq<Attempt>)
    requires InLimit(l) && amount > 0
    ensures var back := l.used - Commits(tries) * amount;
            Retried(l, amount, tries).0.used == if back < 0 then 0 else back
    ensures Retried(l, amount, tries).1 <==> Complete in tries
    decreases |tries|
  {
    if tries != [] {
      var rest := tries[1..];
      assert tries == [tries[0]] + rest;
      if tries[0].AmountOnly? {
        var next := Adjusted(l, -amount).value;
        RetriedGivesBack(next, amount, rest);
        OneMoreCommit(Commits(rest), amount);
      } else {
        RetriedGivesBack(l, amount, rest);
      }
    }
  }

  /** So a retried refund gives the pre-consumption back exactly once if and only if exactly one try commits, or more do
      and the usage ran out at the first. */
  lemma RefundedOnceIff(l: Ledger, amount: int, tries: seq<Attempt>)
    requires InLimit(l) && 0 < amount <= l.used
    ensures Retried(l, amount, tries).0.used == l.used - amount <==>
              Commits(tries) == 1 || (Commits(tries) > 1 && l.used == amount)
  {
    RetriedGivesBack(l, amount, tries);
    if Commits(tries) >= 2 {
      OneMoreCommit(Commits(tries) - 1, amount);
      OneMoreCommit(Commits(tries) - 2, amount);
    }
  }

  /** Refund tries that commit the amount and the mark together. */
  predicate WholeTries(tries: seq<Attempt>) {
    AmountOnly !in tries
  }

  lemma {:induction false} WholeTriesCommitOnce(tries: seq<Attempt>)
    requires WholeTries(tries)
    ensures Commits(tries) == if Complete in tries then 1 else 0
  {
    if tries != [] {
      assert tries == [tries[0]] + tries[1..];
      if !tries[0].Complete? {
        WholeTriesCommitOnce(tries[1..]);
      }
    }
  }

  /** The usage is not reset, refund tries are whole, and no session is settled after its refund. */
  predicate Orderly(x: World, e: Event) {
    match e
    case Settles(i, actual, fundOk, tokenOk) => actual >= 0 && (i < |x.sessions| ==> !x.sessions[i].refunded)
    case RefundRuns(i, fundOk, tries, tokenOk) => WholeTries(tries)
    case Resets => false
    case _ => true
  }

  predicate OrderlyRun(x: World, es: seq<Event>) {
    es == [] || (OrderlyRun(x, es[..|es| - 1]) && Orderly(Exec(x, es[..|es| - 1]), es[|es| - 1]))
  }

  /** In orderly runs a refunded session is not settled, and nothing is settled below zero. */
  predicate Proper(s: Session) {
    Coherent(s) && (s.refunded ==> !s.settled) && (s.settled ==> s.account.paid.value >= 0)
  }

  predicate AllProper(ss: seq<Session>) {
    forall i :: 0 <= i < |ss| ==> Proper(ss[i])
  }

  lemma {:induction false} ChargesAddUp(ss: seq<Session>, i: nat)
    requires AllProper(ss) && i < |ss|
    ensures 0 <= SubscriptionCharge(ss[i]) <= Sum(ss, SubscriptionCharge)
  {
    var last := |ss| - 1;
    if i < last {
      ChargesAddUp(ss[..last], i);
    } else {
      SumNonNegative(ss[..last]);
    }
  }

  lemma {:induction false} SumNonNegative(ss: seq<Session>)
    requires AllProper(ss)
    ensures Sum(ss, SubscriptionCharge) >= 0
  {
    if ss != [] {
      SumNonNegative(ss[..|ss| - 1]);
    }
  }

  predicate UsageIsSum(x: World) {
    AllProper(x.sessions) && InLimit(x.ledger) && x.ledger.used == Sum(x.sessions, SubscriptionCharge)
  }

  lemma OrderlyOpen(x: World, funding: Funding, playground: bool, quota: int, trusted: bool, w: Writes)
    requires UsageIsSum(x)
    ensures UsageIsSum(Step(x, Opens(funding, playground, quota, trusted, w)))
  {
    BeginMoves(x.ledger, funding, playground, quota, trusted, w);
    var s := Begin(x.ledger, funding, playground, quota, trusted, w).1;
    if s.Some? {
      SumAppend(x.sessions, s.value, SubscriptionCharge);
    }
  }

  lemma SettleUsage(l: Ledger, s: Session, actual: int, fundOk: bool, tokenOk: bool)
    requires Proper(s) && InLimit(l) && SubscriptionCharge(s) <= l.used && actual >= 0 && !s.refunded
    ensures var (after, t) := Settle(l, s, actual, fundOk, tokenOk);
            && Proper(t) && InLimit(after)
            && after.used - SubscriptionCharge(t) == l.used - SubscriptionCharge(s)
  {
  }

  lemma OrderlySettle(x: World, i: nat, actual: int, fundOk: bool, tokenOk: bool)
    requires UsageIsSum(x) && i < |x.sessions| && actual >= 0 && !x.sessions[i].refunded
    ensures UsageIsSum(Step(x, Settles(i, actual, fundOk, tokenOk)))
  {
    ChargesAddUp(x.sessions, i);
    SettleUsage(x.ledger, x.sessions[i], actual, fundOk, tokenOk);
    SumUpdate(x.sessions, i, Settle(x.ledger, x.sessions[i], actual, fundOk, tokenOk).1, SubscriptionCharge);
  }

  lemma OrderlyRefund(x: World, i: nat, fundOk: bool, tries: seq<Attempt>, tokenOk: bool)
    requires UsageIsSum(x) && i < |x.sessions| && WholeTries(tries)
    ensures UsageIsSum(Step(x, RefundRuns(i, fundOk, tries, tokenOk)))
  {
    var s := x.sessions[i];
    ChargesAddUp(x.sessions, i);
    SumUpdate(x.sessions, i, RunRefund(x.ledger, s, fundOk, tries, tokenOk).1, SubscriptionCharge);
    WholeTriesCommitOnce(tries);
    RetriedKeeps(x.ledger, s.consumed, tries);
    if s.inFlight {
      RetriedGivesBack(x.ledger, s.consumed, tries);
    }
  }

  /** What a step must not do to the usage: reset what is used, settle a session for less than the usage allows to be
      taken back, or commit a refund more or less often than it marks it. */
  predicate Keeps(x: World, e: Event) {
    match e
    case Resets => x.ledger.used == 0
    case Settles(i, actual, fundOk, tokenOk) =>
      i < |x.sessions| ==>
        var s := x.sessions[i];
        s.funding.Wallet? || s.settled || !fundOk || s.pre - actual <= x.ledger.used
    case RefundRuns(i, fundOk, tries, tokenOk) =>
      i < |x.sessions| ==>
        var s := x.sessions[i];
        || s.funding.Wallet? || !s.inFlight
        || Commits(tries) == (if Complete in tries then 1 else 0)
        || (Complete in tries && x.ledger.used == s.consumed)
    case _ => true
  }

  lemma SettleKeepsIff(l: Ledger, s: Session, actual: int, fundOk: bool, tokenOk: bool)
    requires Coherent(s) && InLimit(l)
    ensures var (after, t) := Settle(l, s, actual, fundOk, tokenOk);
            after.used - SubscriptionCharge(t) == l.used - SubscriptionCharge(s) <==>
              s.funding.Wallet? || s.settled || !fundOk || s.pre - actual <= l.used
  {
  }

  lemma RefundKeepsIff(l: Ledger, s: Session, fundOk: bool, tries: seq<Attempt>, tokenOk: bool)
    requires Proper(s) && InLimit(l) && SubscriptionCharge(s) <= l.used
    ensures var (after, t) := RunRefund(l, s, fundOk, tries, tokenOk);
            after.used - SubscriptionCharge(t) == l.used - SubscriptionCharge(s) <==>
              || s.funding.Wallet? || !s.inFlight
              || Commits(tries) == (if Complete in tries then 1 else 0)
              || (Complete in tries && l.used == s.consumed)
  {
    if s.funding.Subscription? && s.inFlight {
      RetriedGivesBack(l, s.consumed, tries);
      if Complete in tries { CompleteCommits(tries); }
      if Commits(tries) >= 1 { OneMoreCommit(Commits(tries) - 1, s.consumed); }
      if Commits(tries) >= 2 { OneMoreCommit(Commits(tries) - 2, s.consumed); }
    }
  }

  lemma {:induction false} CompleteCommits(tries: seq<Attempt>)
    requires Complete in tries
    ensures Commits(tries) >= 1
  {
    if tries[0].Rejected? {
      assert tries == [tries[0]] + tries[1..];
      CompleteCommits(tries[1..]);
    }
  }

  /** From a usage that is the sum of the charges, a step leaves it so if and only if it is not one of these. */
  lemma UsageKeptIff(x: World, e: Event)
    requires UsageIsSum(x)
    ensures Step(x, e).ledger.used == Sum(Step(x, e).sessions, SubscriptionCharge) <==> Keeps(x, e)
  {
    match e
    case Opens(funding, playground, quota, trusted, w) => OrderlyOpen(x, funding, playground, quota, trusted, w);
    case Settles(i, actual, fundOk, tokenOk) =>
      if i < |x.sessions| {
        SettleKeepsIff(x.ledger, x.sessions[i], actual, fundOk, tokenOk);
        SumUpdate(x.sessions, i, Settle(x.ledger, x.sessions[i], actual, fundOk, tokenOk).1, SubscriptionCharge);
      }
    case Refunds(i) =>
      if i < |x.sessions| {
        SumUpdate(x.sessions, i, Refund(x.sessions[i]), SubscriptionCharge);
      }
    case RefundRuns(i, fundOk, tries, tokenOk) =>
      if i < |x.sessions| {
        ChargesAddUp(x.sessions, i);
        RefundKeepsIff(x.ledger, x.sessions[i], fundOk, tries, tokenOk);
        SumUpdate(x.sessions, i, RunRefund(x.ledger, x.sessions[i], fundOk, tries, tokenOk).1, SubscriptionCharge);
      }
    case TopsUp(amount) =>
    case Resets =>
  }

  /** Over every orderly run of any number of sessions, the subscription's usage is the sum of their charges. */
  lemma {:induction false} UsageStaysSum(x: World, es: seq<Event>)
    requires UsageIsSum(x) && OrderlyRun(x, es)
    ensures UsageIsSum(Exec(x, es))
  {
    if es != [] {
      var y, e := Exec(x, es[..|es| - 1]), es[|es| - 1];
      UsageStaysSum(x, es[..|es| - 1]);
      match e
      case Opens(funding, playground, quota, trusted, w) =>
        OrderlyOpen(y, funding, playground, quota, trusted, w);
      case Settles(i, actual, fundOk, tokenOk) =>
        if i < |y.sessions| {
          OrderlySettle(y, i, actual, fundOk, tokenOk);
        }
      case Refunds(i) =>
        if i < |y.sessions| {
          SumUpdate(y.sessions, i, Refund(y.sessions[i]), SubscriptionCharge);
        }
      case RefundRuns(i, fundOk, tries, tokenOk) =>
        if i < |y.sessions| {
          OrderlyRefund(y, i, fundOk, tries, tokenOk);
        }
      case TopsUp(amount) =>
    }
  }

  /** A reset between pre-consumption and refund breaks this: the refund of the first request, which the reset had
      already forgiven, is taken off the usage of the second. */
  lemma RefundAfterReset(first: Session, l: Ledger, second: int, w: Writes)
    requires Coherent(first) && first.funding.Subscription? && first.inFlight && !first.settled
    requires l.used == 0 && InLimit(l) && second >= first.pre && Begin(l, Subscription, false, second, false, w).1.Some?
    ensures var (reused, s) := Begin(l, Subscription, false, second, false, w);
            var (after, refunded) := RunRefund(reused, first, true, [Complete], true);
            && SubscriptionCharge(refunded) + SubscriptionCharge(s.value) == second
            && after.used == second - first.pre
  {
    var reused := Begin(l, Subscription, false, second, false, w).0;
    BeginMoves(l, Subscription, false, second, false, w);
    assert Commits([Complete]) == 1;
    RetriedGivesBack(reused, first.consumed, [Complete]);
  }
}
