# new-api: a verified model of its stateful core

new-api is a gateway in front of AI model providers. It sells quota through payment webhooks, relays requests over
channels, audits prompts, keeps request bodies for replay, and follows upstream catalogues and prices. This project
models the parts of it whose correctness rests on state: what concurrent webhook handlers do to an order, what a
billing session does to a wallet, what a rule cache may still serve, what a rewritten list of keys or models keeps.

`dafny verify dfyconfig.toml` checks everything. There is one module per component:

- `TopUpAmounts`, `OrderLocks`, `OrderOutcomes`: top-up amounts; the per-order mutexes and the settlement handlers that
  run under them, as one interleaved state machine; what becomes of the orders.
- `BillingSession`: pre-consume, settle and refund, for any number of sessions on shared balances, with writes failing.
- `BodyStorage`, `BodyReplay`: the two request-body storages as refinements of one body; the request context; the usage
  counters.
- `RateLimiter`: the in-memory sliding window against an exact reference.
- `Lists`, `Delimited`, `ModelNames`, `UpstreamSync`, `UpstreamRuns`, `UpstreamCopies`: detecting and applying upstream
  model changes; what one round does; what overlapping handlers and the task do to each other.
- `RuleCache`, `RuleScan`: the double-checked rule cache as a state machine; prompt scanning.
- `MultiKey`, `MultiKeyRuns`: rewriting the key list of a multi-key channel together with its per-key status maps;
  overlapping management requests, reports on keys and polling.
- `VerifyPatrol`: the verification patrol.
- `OggWalker`: the Ogg Opus page walk.
- `RatioDifferences`, `PriceSelection`, `PricingSync`: comparing, choosing and merging upstream prices.
- `Retention`: the audit-log cleaner.

Code that updates an object or runs a loop is a class or a method, proved against a function on values; the properties
are lemmas about those functions. Concurrency is a state machine whose steps are the accesses to shared state. A
database write, a disk write or a network call that may fail is a parameter that says whether it succeeds; the clock is
a parameter. Prices are `real`; `int64` wrap-around is written out where it shows (`Retention`, `OggWalker`).

Where a property one would expect does not hold of the code, the model keeps the code, gives an input or a run that
shows it, and proves the exact condition under which it does hold:

- an expiry webhook overwrites a successful order (`OrderLocks.SuccessLostOnlyToExpiry`; the run is
  `OrderOutcomes.CreditedOrderExpires`), an Epay order whose crediting call fails stays successful and uncredited
  (`CreditLostIff`; the run is `CreditIsLost`), and completing a Creem order by hand credits its amount times the quota
  per unit (`ManualCompletionAmounts` says when that is the amount itself);
- settling a session after its refund was started can charge only the difference (`BillingSession.SettleCostsActualIff`,
  `SettleAfterRefundIff`; no caller in the repository settles after refunding); a retried subscription refund can be given
  several times, because the amount and the refunded mark are committed by different transactions (`RefundedOnceIff`); and
  a quota reset, or such a refund, parts the usage from what the requests cost (`UsageKeptIff`, `RefundAfterReset`);
- the limiter is exact if and only if no window is longer than the expiration plus one second
  (`RateLimiter.ExactIffWindowsFit`); the comment in `common/constants.go` asks for that, nothing checks it;
- a comma in an upstream model name keeps the list from settling (`UpstreamRuns.ConvergesIffCommaFree`);
- the update task and the handlers for all channels do not load a channel's redirects, so the task can add a redirect
  target and a round over all channels can remove a redirect source, which detecting the channel alone would not propose
  (`UpstreamRuns.TaskIsDetectThenAddIff`, `BatchKeepsSourcesIff`; the runs are `TaskAddsTarget`, `BatchDropsSource`);
- the handlers and the task write a channel's settings, and sometimes its models, from copies they loaded earlier.  A name
  stays ignored if and only if every copy still to be written ignores it too, and a pending list stays apart from the
  served models if and only if the write finds no model gained or lost that it proposes to add or remove
  (`UpstreamCopies.IgnoredForGoodIff`, `RunsKeepInvIff`; the runs are `IgnoringIsLost`, `AddedIsProposedAgain`);
- a key's reported status, and the polling index, are saved without the key column, so the count and the statuses stay
  those of the keys if and only if the save finds as many keys as were loaded (`MultiKeyRuns.RunsKeepSoundIff`; the runs
  are `DeletionMiscounts`, `DeletionShiftsReport`), and polling can undo a report (`PollingUndoesReport`);
- deleting keys loses the statuses of others when a blank key comes to stand first or last, and deleting the auto-disabled
  keys of a channel whose keys are all auto-disabled enables all of them instead (`MultiKey.DeleteKeyFilters`,
  `DeleteDisabledWorksIff`; the inputs are `BlankKeyLosesStatus`, `BlankKeyIsStored` and `AllFailedComeBack`);
- a verdict that arrives after an administrator's edit is judged by the old status, so the patrol can enable a channel
  that was just disabled by hand (`VerifyPatrol.StaleListingOverrides`, `ManualDisableIsUndone`), and its disabling has
  no effect of its own on multi-key channels (`DisableTakesEffectIff`);
- a regular-expression tag names a pattern that did not match once a pattern before it does not compile
  (`RuleScan.TagNamesTheMatch`, `BrokenPatternIsReported`);
- a retention of 106752 days or more overflows; up to 213503 days it deletes every document
  (`Retention.CleanupFollowsPoliciesIff`, `LongRetentionDeletesAll`);
- a pricing sync removes nothing, so a model that upstream moves from a price to a ratio keeps its old price
  (`PricingSync.BilledAsListedIff`, `OldPriceStays`);
- of channels that share a name only the last is heard when prices are compared, so it can hide another's difference
  (`RatioDifferences.BuildDifferences`, `NamesakeHidesDifference`; channels with an id are named apart, upstreams without
  one may not be);
- restoring a pricing backup skips group ratios that fail their check (`PricingSync.RestoreBringsBack`);
- stale-file cleanup and closing a storage both take the file off the counters (`BodyReplay.CountersAreTallyIff`,
  `SweptFileCountsTwice`), and two creations that look for room before either is counted can exceed the maximum
  (`StreamStaysInLimitIff`, `DataStaysInLimitIff`; the run is `OverlappingCreationsExceed`).

## Model

| member | source | states |
|---|---|---|
| `TopUpAmounts.UnitsAreFloor` | controller/topup.go:180-185 | The division rounded to 16 decimals and then truncated gives the exact floor of tokens over quota-per-unit, for every token amount, as long as quota-per-unit is below 2·10^16. |
| `TopUpAmounts.FloorExactlyBelowTwicePrecision` | controller/topup.go:180-185 | That bound is exact: the floor is right for all token amounts if and only if quota-per-unit is below 2·10^16. |
| `TopUpAmounts.AcceptedRequestCredits` | controller/topup.go:118-138 | What settling adds for a request that passed the minimum check is a whole number of units, at least the minimum, and within one unit of the tokens asked for. |
| `OrderLocks.Work` | controller/topup.go:281-309 | Every database call inside a handler's section, whether it succeeds, cannot read (which the handlers take for a missing order) or cannot write, leads to the next call of the section or to its exit, never out of the section without unlocking. |
| `OrderOutcomes.TopUpIsSettled` | model/topup.go:239-378 | A handler that settles top-ups and goes through its section alone with no call failing marks a pending order successful and adds one grant: the units for Creem, the money times the rate for Stripe, the whole part of units times rate for Epay and by hand (of money times rate for a Stripe order by hand). It does nothing else, and nothing at all for an order that is missing or not pending, or by hand not worth a positive amount. |
| `OrderOutcomes.SubscriptionIsCompleted` | model/subscription.go:508-606 | A handler that completes subscriptions makes a pending one successful, grants it once, and leaves a successful top-up row of its number and price; any other it leaves alone. |
| `OrderOutcomes.ExpiryIsRecorded` | controller/topup_stripe.go:217-257 | An expiry webhook expires a pending subscription, or without a subscription of that number the top-up order whatever its status. |
| `OrderOutcomes.FailedCallChangesNothing` | controller/topup_stripe.go:180-257 | A database call that fails changes nothing, and a failing read is taken for missing rows. |
| `OrderOutcomes.DoneMeansSettled` | controller/topup.go:281-309 | In every interleaving, a handler that had not started when its order was there leaves it no longer pending when it is done, if no call fails and no subscription takes the number (by hand: if order and rate are worth at least one). |
| `OrderOutcomes.DoneMeansCompleted` | controller/subscription_payment_epay.go:150-165 | The same for a handler that completes subscriptions. |
| `OrderLocks.SectionsExclude` | controller/topup.go:204-228 | Under the lock invariant two threads inside the section of one trade number are the same thread. |
| `OrderLocks.RunsKeepInv` | controller/topup.go:204-228 | Over every interleaving of any number of handlers: createLock and mutex ownership are consistent, each mutex belongs to one trade number, order copies held in a section are still the stored ones, and everything granted is for an order that left pending. |
| `OrderLocks.CreditedAtMostOnce` | controller/topup.go:281-309 | In every reachable state sections of one trade number exclude each other, no order is credited twice, and a credited order is not pending. |
| `OrderOutcomes.CreditLostIff` | controller/topup.go:290-306 | A step leaves a successful order without its grant if and only if it is the crediting call of EpayNotify for an order not granted otherwise, and the call fails. |
| `OrderOutcomes.CreditIsLost` | controller/topup.go:290-306 | There is a run from the start, for every pending order, that ends with the order successful, uncredited and nobody about to credit it. |
| `OrderOutcomes.SuccessIsGranted` | controller/topup.go:281-309 | In every interleaving in which no write fails and no order is negative, a successful order has been granted or a handler is about to credit it; with the above, exactly once. |
| `OrderOutcomes.GrantsAreForTheStoredOrder` | controller/topup.go:290-306 | A step adds at most one grant, for its own order, and a quota grant is what the handler's route gives for the order as stored at that moment, although EpayNotify credits from a copy. |
| `OrderOutcomes.ManualCompletionAmounts` | model/topup.go:239-305 | At any configured quota per unit, manual completion credits what the Epay webhook would and the whole part of what the Stripe webhook would; what the Creem webhook would it credits if and only if the rate is not below one and the amount times the rest of the rate stays below one. |
| `OrderLocks.OneMutexPerTrade` | controller/topup.go:208-220 | A trade number's mutex never changes once published, different numbers have different mutexes, and no allocated mutex is lost. |
| `OrderLocks.LockKeptForGood` | controller/topup.go:208-220 | No continuation of any run replaces or removes a published mutex. |
| `OrderLocks.SettleKeepsLedger` | model/topup.go:58-105 | The pending check and the credit in one transaction keep every grant unique and for an order that left pending. |
| `OrderLocks.CompleteKeepsLedger` | model/subscription.go:508-606 | Completing a subscription order, with its top-up row upserted as successful, keeps the same. |
| `OrderLocks.WorkKeepsLedger` | model/topup.go:239-378 | Every database call of every handler, manual completion and Creem included, keeps the grants unique, given that the handler's copy is current. |
| `OrderLocks.WorkKeepsOwnCopy` | controller/topup.go:285-302 | The copy read at the start of a section stays equal to the stored order until it is written back, and a handler about to credit has not credited. |
| `OrderLocks.LeftPendingForGood` | model/topup.go:58-105 | An order that has left pending never returns to it, in any run. |
| `OrderLocks.SuccessLostOnlyToExpiry` | controller/topup_stripe.go:216-257 | A step takes an order out of success if and only if it is the saving step of an expiry handler for that order. |
| `OrderOutcomes.ExpiryOverwritesSuccess` | controller/topup_stripe.go:216-257 | After any run, an expiry handler running alone turns a successful order expired and leaves its credit in place. |
| `OrderOutcomes.CreditedOrderExpires` | controller/topup_stripe.go:180-257 | There is a run from the start, for every pending order, in which Stripe completes and credits the order once and its expiry then turns it expired. |
| `OrderLocks.NeverStuck` | controller/topup.go:204-228 | In every reachable state with an unfinished handler some handler can step, although createLock is held while waiting for an order mutex. |
| `OrderLocks.RunsAreBounded` | controller/topup.go:204-228 | Steps taken plus steps left never exceed the initial bound, so no run of a fixed set of handlers goes on for ever. |
| `OrderLocks.EveryRunCanFinish` | controller/topup.go:204-228 | From every reachable state there is a continuation in which all handlers finish. |
| `OrderOutcomes.CreatorCanBlockOtherOrders` | controller/topup.go:208-220 | There is a run in which the creator of a mutex waits for it while holding createLock, and a handler of an untouched order waits too. |
| `BillingSession.Billing.Open` | service/billing_session.go:149-192 | Pre-consuming token and funding, with the token rolled back when the funding refuses, computes the modelled outcome on the shared balances. |
| `BillingSession.Billing.SettleActual` | service/billing_session.go:39-77 | Settling computes the modelled outcome, and reports success exactly when the session was settled already or is settled now with the token adjusted, or with nothing to adjust. |
| `BillingSession.Billing.StartRefund` | service/billing_session.go:80-136 | A refund is started once, and only for a session that is neither settled nor refunded and has something pre-consumed. |
| `BillingSession.Billing.FinishRefund` | service/billing_session.go:102-113 | The asynchronous part gives back funding and token as modelled, whichever writes fail. |
| `BillingSession.Bank.AdjustSubscription` | model/subscription.go:1168-1192 | A delta is applied with the clamp at zero, or refused without effect when it would pass the total. |
| `BillingSession.Bank.RefundWithRetry` | service/funding_source.go:122-139 | The loop of at most three tries leaves the usage that the sequence of their outcomes determines. |
| `BillingSession.OpenCharges` | service/billing_session.go:149-228 | An open session costs nothing on a trusted wallet, otherwise the quota asked for, and at least 1 on a subscription; the token pays the same unless the request is from the playground; no other balance moves. |
| `BillingSession.OpensIff` | service/billing_session.go:149-192 | A session opens if and only if the writes it needs succeed and, on a subscription, the quota fits; then the balances have moved by exactly what it asks for, otherwise at most the token has, when giving it back fails. |
| `BillingSession.OpensByPreferenceIff` | service/billing_session.go:255-347 | Which requests get a session and from which source: the preferred one if it serves, the other only if the preferred one was read and found short. |
| `BillingSession.OneSourceIsCharged` | service/billing_session.go:255-347 | Under every billing preference at most one source is charged, exactly by the session's charge: the wallet only if it covers the quota and the preference allows it, a subscription only if the preference allows it, and under wallet-first only if the wallet does not cover the quota. |
| `BillingSession.FailureIsAtomicIff` | service/billing_session.go:160-184 | A failed pre-consumption leaves all balances unchanged if and only if no token quota had been taken or the roll-back succeeds. |
| `BillingSession.SettleMoves` | service/billing_session.go:39-77 | Settling moves wallet and token by exactly the change of the session's charge, and keeps the session's flags consistent: the funding is never left settled on an unsettled session. |
| `BillingSession.SettlesIff` | service/billing_session.go:39-77 | A settlement takes effect if and only if there is no difference, or the funding write succeeds and, on a subscription, the usage still fits. Then wallet (or usage, down to zero) and token have moved by exactly the difference, up or down; otherwise nothing changes. |
| `BillingSession.RefundStartsIff` | service/billing_session.go:80-136 | A refund starts if and only if the session took something and is neither settled nor refunded. |
| `BillingSession.RefundGivesBack` | service/billing_session.go:102-113 | When it runs, the wallet and the token each get back exactly what was taken, if their writes succeed; a usage loses it down to zero. |
| `BillingSession.EventsTakeEffect` | service/billing_session.go:39-192 | The same conditions decide among any number of other sessions. |
| `BillingSession.RunRefundMoves` | service/billing_session.go:102-113 | So does the refund. |
| `BillingSession.RunsConserve` | service/billing_session.go:39-192 | Over every interleaving of any number of sessions, with any writes failing, wallet plus the sum of all charges changes only by top-ups; token plus the token charges does not change unless a roll-back fails. |
| `BillingSession.SettleCostsActualIff` | service/billing_session.go:39-77 | Settling a session before any refund of it has run: it costs its actual quota in every continuation if and only if its refund has not been started and its pre-consumption is not negative. |
| `BillingSession.SettleAfterRefundIff` | service/billing_session.go:39-77 | Settling it after its refund has run: it costs its actual quota in every continuation if and only if the refund did not reach the funding. |
| `BillingSession.SettledAfterRefund` | service/billing_session.go:42-49 | Settling 120 after the refund of a pre-consumption of 50 charges 70. |
| `BillingSession.SettledIsFinal` | service/billing_session.go:42-44 | A settled session with no refund under way is never changed again: no second charge, no refund. |
| `BillingSession.RefundedIsFinal` | service/billing_session.go:80-87 | A refunded session is never refunded again and keeps its charge, unless it is settled later. |
| `BillingSession.RunsStayInLimit` | model/subscription.go:956-1083 | A subscription's usage stays between zero and its total in every run, resets and retries included. |
| `BillingSession.RetriedGivesBack` | model/subscription.go:1060-1083 | A retried refund takes the amount off the usage once for every try that commits it, down to zero, and marks the record if and only if some try is complete. |
| `BillingSession.RefundedOnceIff` | model/subscription.go:1060-1083 | With at least the amount used, the pre-consumption is given back exactly once if and only if exactly one try commits, or more do and the usage was used up by the first. |
| `BillingSession.UsageStaysSum` | model/subscription.go:956-1192 | Over every run without resets, half-committed refunds or settlements after a refund, the usage is the sum of the sessions' charges. |
| `BillingSession.UsageKeptIff` | model/subscription.go:956-1192 | From a usage that is the sum of the charges, a step leaves it so if and only if it is not a reset of a used subscription, a settlement that would take back more than is used, or a refund that commits more or less often than it marks (unless it used up the usage). |
| `BillingSession.RefundAfterReset` | model/subscription.go:1168-1192 | After a reset, refunding an earlier request lowers the usage of a later one by the earlier amount. |
| `BodyStorage.MemoryStorage.constructor` | common/body_storage.go:37-45 | A new storage stands for the whole body at offset zero and is counted once. |
| `BodyStorage.MemoryStorage.Read` | common/body_storage.go:47-54 | A read gives the next bytes of the body, end of file, or the closed error. |
| `BodyStorage.MemoryStorage.Seek` | common/body_storage.go:56-63 | Seeking from start, position or end moves the body's position; negative targets and unknown origins are refused without effect. |
| `BodyStorage.SeekLands` | common/body_storage.go:56-63 | Where a seek lands, from each origin, and when it is refused. |
| `BodyStorage.MemoryStorage.Contents` | common/body_storage.go:74-81 | The whole body unless closed. |
| `BodyStorage.MemoryStorage.Close` | common/body_storage.go:65-72 | The storage is closed and uncounted; a second close changes nothing. |
| `BodyStorage.DiskStorage.constructor` | common/body_storage.go:100-130 | As for memory, on the disk counters. |
| `BodyStorage.DiskStorage.Read` | common/body_storage.go:169-176 | The same body behaviour as memory, whatever short reads the file makes. |
| `BodyStorage.DiskStorage.Seek` | common/body_storage.go:178-185 | The same seek as memory. |
| `BodyStorage.DiskStorage.Contents` | common/body_storage.go:198-230 | The whole body unless closed, with the read position restored. |
| `BodyStorage.DiskStorage.Close` | common/body_storage.go:187-196 | As for memory, with the clamped disk counters. |
| `BodyStorage.File.ReadFull` | common/body_storage.go:217-222 | Reading until full gives exactly the requested stretch of the file however short the single reads are. |
| `BodyStorage.CreateBodyStorage` | common/body_storage.go:241-259 | The storage holds the data from offset zero; it is on disk exactly when enabled, over the threshold, available and writable; the counters follow. |
| `BodyStorage.CreateFromReader` | common/body_storage.go:262-303 | On either route a body is accepted exactly when it has at most maxBytes bytes (and the disk, if chosen, can be written), and then it is kept whole; a refusal counts nothing. |
| `BodyStorage.PlacedOnDiskIff` | common/body_storage.go:241-303 | Exactly which bodies go to disk, and which are refused, by their size, their declared length and the usage. |
| `BodyReplay.ReadsGiveTheRest` | common/body_storage.go:13-23 | Any reads up to end of file give together all that was left of the body. |
| `BodyReplay.RequestContext.GetBodyStorage` | common/gin.go:36-96 | A kept storage is rewound, otherwise the body is read off the connection, as modelled; a closed or exhausted context gives nothing. |
| `BodyReplay.RequestContext.Cleanup` | common/gin.go:99-106 | The storage is closed, uncounted and given up. |
| `BodyReplay.ReplayedWhole` | controller/relay.go:202-222 | After any number of attempts that read and seek as they like, the next attempt gets the whole original body from offset zero. |
| `BodyReplay.RefusedForGood` | common/gin.go:60-77 | A body over the limit is refused at every attempt. |
| `BodyReplay.GoneAfterCleanup` | common/gin.go:99-106 | After clean-up no attempt gets a body again. |
| `BodyReplay.CountersAreTallyIff` | common/disk_cache_config.go:109-134 | The counters equal the number and bytes of open storages at every point of a run if and only if the stale-file cleanup never finds the file of an open storage; so without it the clamps never fire. |
| `BodyReplay.StaysExactIff` | common/disk_cache.go:120-135 | A step from exact counters leaves them exact if and only if it does not sweep the file of an open storage. |
| `BodyReplay.TallyCounts` | common/disk_cache_config.go:109-156 | The tally the counters are compared with is the number of open storages on disk and in memory, and the sum of their sizes. |
| `BodyReplay.OverrunIsBounded` | common/disk_cache_config.go:170-177 | Creations look for room and count themselves later. In every run, sweeps and any overlap included, disk usage exceeds the maximum by no more than the largest excess of a single creation, that is, what its body takes beyond the length it looked for plus what the usage has risen by since. |
| `BodyReplay.HonestRunsStayInLimit` | common/body_storage.go:240-281 | It stays within the maximum in every run in which no creation has such an excess. |
| `BodyReplay.SequentialRunsStayInLimit` | common/body_storage.go:240-281 | In particular in every run of creations that do not overlap and whose bodies are no longer than declared. |
| `BodyReplay.OverlappingCreationsExceed` | common/body_storage.go:245-252 | Two bodies that fit one at a time but not together, both checked before either is counted, exceed the maximum. |
| `BodyReplay.StreamStaysInLimitIff` | common/body_storage.go:266-281 | A streamed body stays within the maximum at every usage that admitted it if and only if its length and what the usage has risen by since are together at most its declared length. |
| `BodyReplay.DataStaysInLimitIff` | common/body_storage.go:240-252 | A body at hand does so if and only if the usage has not risen since. |
| `BodyReplay.CountersNeverOverReport` | common/disk_cache.go:120-135 | With stale-file cleanup the disk counters stay non-negative and never exceed what is open. |
| `BodyReplay.SweptFileCountsTwice` | common/disk_cache.go:129-134 | From exact counters, sweeping the file of any open storage and then closing the storage takes its bytes and its count off twice, down to zero. |
| `RateLimiter.InMemoryRateLimiter.Request` | common/rate-limit.go:45-70 | The queue update and the answer are those of the modelled decision. |
| `RateLimiter.InMemoryRateLimiter.Sweep` | common/rate-limit.go:28-43 | The sweep removes exactly the keys whose newest accepted request is older than the expiration. |
| `RateLimiter.QueueAnswersWindow` | common/rate-limit.go:45-70 | The bounded queue answers yes exactly when the accepted requests inside the window are fewer than the limit (a limit of zero counts as one). |
| `RateLimiter.RunsRepresent` | common/rate-limit.go:28-70 | Over every run with a clock that does not go back, the queues keep representing the full history of accepted requests of every key. |
| `RateLimiter.LimiterIsExact` | common/rate-limit.go:28-70 | Every answer of every such run is that of the exact sliding window, if no window is longer than the expiration plus one. |
| `RateLimiter.SweepsAreUnobservable` | common/rate-limit.go:28-43 | Leaving out all sweeps changes no answer. |
| `RateLimiter.WindowsNeverOverfill` | common/rate-limit.go:28-70 | In every run of the limiter, sweeps included, at most the limit of the accepted requests of a key fall into any window, wherever it begins, if no window is longer than the expiration plus one. |
| `RateLimiter.LongWindowRun` | common/constants.go:159-160 | For any longer window there is a run in which a sweep makes the limiter accept a request too many. |
| `RateLimiter.ExactIffWindowsFit` | common/constants.go:159-160 | The limiter is exact on all runs if and only if every window is at most the expiration plus one. |
| `Delimited.RoundTrip` | model/channel.go:219-224 | A list of non-empty separator-free items is read back unchanged from its joined form. |
| `Delimited.RoundTripIff` | model/channel.go:85-107 | Any list of separator-free items is read back unchanged if and only if it begins and ends with a non-empty item; otherwise it comes back shorter. |
| `Delimited.JoinSplit` | model/channel.go:219-224 | Joining what a string splits into gives the string back, whatever it is. |
| `Delimited.ReadListStrips` | model/channel.go:219-224 | A column is taken apart at every delimiter but those at its ends. |
| `ModelNames.NormalizeCleans` | controller/channel_upstream_update.go:76-81 | Normalising gives trimmed, non-empty, distinct names and changes nothing that already is so. |
| `ModelNames.TrimSpaceIsTheTrim` | controller/channel_upstream_update.go:76-81 | Trimming a string gives what stands in it between white space, and nothing else is that. |
| `ModelNames.NormalizeMembers` | controller/channel_upstream_update.go:76-81 | Normalising keeps exactly the non-empty names that stand, trimmed, in some entry of the list. |
| `ModelNames.NormalizeOrder` | controller/channel_upstream_update.go:76-81 | It keeps them in the order of their first occurrences. |
| `ModelNames.MergeFacts` | controller/channel_upstream_update.go:83-97 | Merging is the union of the normalised lists, clean. |
| `ModelNames.SubtractFacts` | controller/channel_upstream_update.go:99-108 | Subtracting is their difference, clean. |
| `ModelNames.IntersectFacts` | controller/channel_upstream_update.go:110-119 | Intersecting is their intersection, clean. |
| `ModelNames.ApplySelectedFacts` | controller/channel_upstream_update.go:121-126 | Applying keeps the original order without what is removed and not re-added, followed by the new names; additions win over removals. |
| `ModelNames.NormalizeModelNames` | controller/channel_upstream_update.go:76-81 | The loops give, each once, exactly the non-empty names that stand, trimmed, in some entry of the list. |
| `ModelNames.MergeModelNames` | controller/channel_upstream_update.go:83-97 | The loop computes the merge. |
| `ModelNames.SubtractModelNames` | controller/channel_upstream_update.go:99-108 | The loops leave, in order and each once, exactly the names of the normalised base that the normalised removals do not hold. |
| `ModelNames.IntersectModelNames` | controller/channel_upstream_update.go:110-119 | The loops leave, in order and each once, exactly the names of the normalised base that the normalised allowance holds. |
| `ModelNames.ApplySelectedModelChanges` | controller/channel_upstream_update.go:121-126 | The composition computes the applied list. |
| `UpstreamSync.CollectPending` | controller/channel_upstream_update.go:155-211 | The loops collect exactly the pending additions and removals: upstream names neither local, redirect targets nor ignored; local names neither redirect sources nor upstream. |
| `UpstreamSync.Channel.UpdateSettings` | controller/channel_upstream_update.go:325-334 | Settings are written whole over the row, models only when they are to be updated, redirects never. |
| `UpstreamSync.Channel.CheckAndPersist` | controller/channel_upstream_update.go:336-383 | A check works on the copy its caller has loaded and writes the modelled lists over the row as it is by then; it reports as added exactly the number of names pending in the copy when it synchronizes and none otherwise, and changed models exactly when some were added and saved. |
| `UpstreamSync.Channel.ApplyUpdates` | controller/channel_upstream_update.go:756-804 | An application writes what it makes of its copy over the row, and reports what took effect of the request and whether the models changed. |
| `UpstreamSync.LocalIsClean` | model/channel.go:219-224 | The local model list read from its comma-joined column is always clean and comma-free. |
| `UpstreamRuns.DetectFacts` | controller/channel_upstream_update.go:155-211 | After a detection the pending lists are clean, disjoint from what is local or ignored, and complete. |
| `UpstreamRuns.CheckIsWrittenIff` | controller/channel_upstream_update.go:336-383 | A check is written if and only if it is saved and, for the task, the last one is long enough ago; any other caller checks at once, and only the task changes models. |
| `UpstreamRuns.ApplyIsWrittenIff` | controller/channel_upstream_update.go:756-804 | An application changes nothing unless it is saved, and then sets the time of the check. |
| `UpstreamRuns.EffectiveFacts` | controller/channel_upstream_update.go:769-775 | What takes effect of a request is clean and within the pending lists. |
| `UpstreamRuns.AppliedModels` | controller/channel_upstream_update.go:777-782 | The models after an application are the local ones without the effective removals, followed by the effective additions. |
| `UpstreamRuns.AppliedLists` | controller/channel_upstream_update.go:784-791 | The pending lists lose exactly what was added, ignored or removed. |
| `UpstreamRuns.ApplySplitsPending` | controller/channel_upstream_update.go:756-804 | Every pending addition ends added, ignored or still pending, and in only one of them, with adding winning over ignoring; every pending removal is removed or still pending. |
| `UpstreamRuns.AutoSyncIsDetectThenAdd` | controller/channel_upstream_update.go:336-383 | With the same redirects loaded, an automatic sync ends with the same models and lists as a detection followed by applying all its additions. |
| `UpstreamRuns.RedirectsMatterIff` | controller/channel_upstream_update.go:155-211 | Without the redirects a detection finds the same additions if and only if no redirect target that is neither served nor ignored is listed upstream, and the same removals if and only if every served redirect source is. |
| `UpstreamRuns.TaskIsDetectThenAddIff` | controller/channel_upstream_update.go:518-548 | The task, which loads no redirects, leaves a channel as detecting it alone and adding everything would if and only if neither of these happens. |
| `UpstreamRuns.BatchKeepsSourcesIff` | controller/channel_upstream_update.go:810-904 | Detecting and applying over all channels keeps the redirect sources a channel serves if and only if upstream lists them all. |
| `UpstreamRuns.DetectOneName` | controller/channel_upstream_update.go:712-740 | For a channel serving one name when upstream lists only another: what is pending, by whether the redirects cover the two. |
| `UpstreamRuns.DetectAloneFindsNothing` | controller/channel_upstream_update.go:712-740 | If the one is redirected to the other, detecting the channel alone finds nothing to change. |
| `UpstreamRuns.OneNameServed` | model/channel.go:219-224 | A models column holding one name is such a channel. |
| `UpstreamRuns.TaskAddsTarget` | controller/channel_upstream_update.go:518-548 | If that other name is the redirect target of the first, the task adds it, although detecting the channel alone finds nothing. |
| `UpstreamRuns.BatchDropsSource` | controller/channel_upstream_update.go:810-975 | And a round over all channels replaces the redirect source by its target. |
| `UpstreamRuns.CheckKeepsInv` | controller/channel_upstream_update.go:336-383 | A check written over the row it was loaded from keeps pending additions neither served nor ignored, pending removals served and the lists clean, whatever fails. |
| `UpstreamRuns.ApplyKeepsInv` | controller/channel_upstream_update.go:756-804 | So does an application of any request. |
| `UpstreamRuns.RedetectionFindsTheRest` | controller/channel_upstream_update.go:756-804 | Detecting again after any application finds exactly what the application left pending. |
| `UpstreamRuns.OneRoundConverges` | controller/channel_upstream_update.go:155-211 | With whatever redirects loaded, detecting, applying everything and detecting again finds nothing, and the models are the expected ones, the loaded redirect sources among them. |
| `UpstreamRuns.ConvergesIffCommaFree` | controller/channel_upstream_update.go:155-211 | For an upstream list this holds on every channel and with whatever redirects loaded if and only if no name contains a comma. |
| `UpstreamCopies.UndisturbedCheck` | controller/channel_upstream_update.go:336-383 | Written over the row it was loaded from, a check is the single step the other results are about, with the redirects its caller loads. |
| `UpstreamCopies.UndisturbedApply` | controller/channel_upstream_update.go:756-804 | And so is an application. |
| `UpstreamCopies.CheckOverColumns` | controller/channel_upstream_update.go:325-383 | A check written from a copy leaves the copy's settings with the new time, the row's redirects, and the row's models unless the task added to the copy's. |
| `UpstreamCopies.ApplyOverColumns` | controller/channel_upstream_update.go:756-804 | And so does an application, but for the models. |
| `UpstreamCopies.RunsKeepTidy` | controller/channel_upstream_update.go:325-334 | In every interleaving of loads and writes by any number of handlers and the task, the pending lists stay clean and no ignored name is pending, in the row and in every copy. |
| `UpstreamCopies.CheckOverIsInvIff` | controller/channel_upstream_update.go:336-383 | A check written from a copy keeps pending additions unserved and pending removals served if and only if it writes the models too, or writes nothing, or no model gained since the load is one it proposes to add and none lost is one it proposes to remove. |
| `UpstreamCopies.ApplyOverIsInvIff` | controller/channel_upstream_update.go:756-804 | The same for an application: what matters is what it leaves pending. |
| `UpstreamCopies.RunsKeepInvIff` | controller/channel_upstream_update.go:518-548 | A run keeps this after each of its events if and only if each of its writes meets that condition. |
| `UpstreamCopies.WriteIgnoresIff` | controller/channel_upstream_update.go:325-334 | After a write a name is ignored if and only if the copy ignored it, or the write is a request to ignore it, and not to add it, that finds it pending in the copy. |
| `UpstreamCopies.IgnoredForGoodIff` | controller/channel_upstream_update.go:155-211 | A name stays ignored in every run from here on if and only if the row and every copy still to be written ignore it. |
| `UpstreamCopies.IgnoredIsNeverServed` | controller/channel_upstream_update.go:155-211 | A name they all ignore and do not serve is never served or proposed again, in any run, whatever is selected. |
| `UpstreamCopies.IgnoringIsLost` | controller/channel_upstream_update.go:518-548 | Whatever pending name is ignored between the task's load and its write, the task serves it if upstream lists it, and it is no longer ignored. |
| `UpstreamCopies.AddedIsProposedAgain` | controller/channel_upstream_update.go:904-948 | Whatever pending name is added between the load and the write of a detection over all channels is served and proposed at once afterwards, if upstream lists it. |
| `RuleCache.RunsKeepInv` | audit/scanner.go:50-115 | Over every interleaving of scans and rule edits the read-write lock is respected and every cached entry is the rule set of some table version no older than the last completed edit. |
| `RuleCache.OneWriterNoReaders` | audit/scanner.go:50-71 | No reader is inside while a writer is. |
| `RuleCache.StaleOnlyWhileEditing` | audit/scanner.go:107-115 | A cached list that is not that of the rules in force exists only while the edit that changed the table has not yet invalidated the cache. |
| `RuleCache.EnabledAt` | audit/model.go:82-86 | The rules a group gets are the enabled ones that are global or its own: all of them, each as often as it is there and in the table's order. |
| `RuleCache.SelectionIsUnique` | audit/model.go:82-86 | Only one list is that. |
| `RuleCache.ScansSeeCompletedEdits` | audit/controller.go:86-91 | A scan that starts after an edit has completed returns exactly these rules of a table version no older than the edit. |
| `RuleCache.ScanGetsRules` | audit/scanner.go:50-105 | A scan that finds the lock free, its calls succeeding, returns the cached list if it was loaded less than two minutes ago, and otherwise exactly the rules in force, which it leaves in the cache. |
| `RuleCache.EditIsApplied` | audit/controller.go:86-91 | An edit whose write succeeds makes its table current and has emptied the cache when it is done; a failed one changes nothing. |
| `RuleScan.Compile` | audit/scanner.go:73-98 | Every rule keeps its patterns, and a regular-expression rule also those of them that compile, in order. |
| `RuleScan.FirstHit` | audit/scanner.go:135-157 | The tag is that of the first keyword or pattern that hits, and absent exactly when none does. |
| `RuleScan.KeywordHitsIff` | audit/scanner.go:136-145 | A keyword hits if and only if it is not empty and stands in the prompt, both in lower case. |
| `RuleScan.RuleMatchesIff` | audit/scanner.go:135-157 | A rule matches if and only if it is a keyword rule with a keyword that hits, or a regular-expression rule with a pattern that compiles and matches. |
| `RuleScan.MatchRule` | audit/scanner.go:135-157 | The loops give the tag of the first hitting keyword of a keyword rule, or of the first hitting pattern of a regular-expression rule; empty keywords never hit. |
| `RuleScan.ScanPrompt` | audit/scanner.go:118-170 | The report carries the tags of all matching rules in order, and level, category and detail of the first rule among those of the highest level; an empty prompt gives the empty report. |
| `RuleScan.TagsAreOfMatching` | audit/scanner.go:159-160 | The tags are one for each matching rule, in rule order, with the rule's name. |
| `RuleScan.TagNamesTheMatch` | audit/scanner.go:147-156 | For a regular-expression rule, the tag reported is a pattern that compiles and matches, whatever the patterns match, if and only if everything that compiles after a failing pattern has already stood before it. |
| `RuleScan.BrokenPatternIsReported` | audit/scanner.go:147-156 | A rule of a failing pattern and one that matches reports the failing one. |
| `MultiKey.RetainFilters` | controller/channel.go:1560-1592 | Rewriting keys and status maps together gives the old listing without the dropped positions: every key keeps its own status, time and reason. |
| `MultiKey.DeleteKeyFilters` | controller/channel.go:1542-1620 | A bad index or the last key changes nothing. Otherwise the listing loses that entry and no other if and only if the keys left begin and end with a non-blank one, or none was taken out. |
| `MultiKey.DeleteKeyMoves` | controller/channel.go:1560-1592 | Deleting one key moves the stored times and reasons of the others with them, also of those that are enabled. |
| `MultiKey.AllFailedComeBack` | controller/channel.go:1622-1689 | When all keys are automatically disabled, deleting them leaves all keys, enabled. |
| `MultiKey.DeleteDisabledWorksIff` | controller/channel.go:1622-1689 | The listing loses exactly the auto-disabled keys if and only if there are none or the keys left begin and end with a non-blank one. |
| `MultiKey.BlankKeyLosesStatus` | controller/channel.go:1622-1689 | With a blank key between an auto-disabled and a manually disabled one, deleting the disabled keys leaves the last, enabled. |
| `MultiKey.BlankKeyIsStored` | controller/channel.go:601-612 | Creating a channel from three lines, the middle one a space, stores such keys. |
| `MultiKey.CreatedIsSoundIff` | controller/channel.go:601-612 | The count a new channel starts with is that of its keys if and only if there are none or the first and the last are not blank. |
| `MultiKey.CleanKeysOf` | controller/channel.go:601-612 | A new channel's keys are its lines that are not empty, trimmed, all of them and in order. |
| `MultiKey.AddedIsProper` | controller/channel.go:919-947 | Appended keys are trimmed, non-empty, distinct and new. |
| `MultiKey.AddedIff` | controller/channel.go:919-947 | A key is added if and only if it stands, trimmed and not blank, in a line of the request and in no existing key. |
| `MultiKey.AppendExtendsKeys` | controller/channel.go:877-950 | The new keys follow the existing ones if and only if the column did not hold a single blank key or nothing is added. |
| `MultiKey.AppendExtendsListing` | controller/channel.go:877-950 | Appending keeps the listing of the existing keys, if it keeps the keys, and the new ones are enabled if statuses were within the keys. |
| `MultiKey.AppendToNothing` | controller/channel.go:877-950 | Without any key, appending stores the request as it is. |
| `MultiKey.StoredKeeps` | model/channel.go:506-553 | Saving a list of keys that begins and ends with a non-blank one reads the same keys and listing back and sets the size to their number; of any other list keys are lost or it is not stored. |
| `MultiKey.TurnedOffFacts` | controller/channel.go:1495-1540 | Disabling all gives every key a non-enabled status and keeps those already disabled. |
| `MultiKey.DisableFacts` | controller/channel.go:1386-1427 | Disabling a key changes its own listing entry and no other. |
| `MultiKey.EnableFacts` | controller/channel.go:1429-1469 | Enabling a key clears its own entry and no other, and undoes disabling it. |
| `MultiKey.AllFacts` | controller/channel.go:1471-1540 | Enabling all lists every key as enabled; disabling all leaves no counted key enabled and keeps the entries of those that were disabled. |
| `MultiKey.AutoDisableFacts` | model/channel.go:621-648 | A failing key gets its own entry with time and reason, and no other entry changes. |
| `MultiKey.ReportEnables` | model/channel.go:621-640 | A key reported to work again is enabled, and no other entry changes. |
| `MultiKey.FailedKeyIsDeleted` | controller/channel.go:1622-1689 | Deleting the disabled keys after one failure removes exactly the key that failed if and only if the keys left begin and end with a non-blank one. |
| `MultiKeyRuns.UndisturbedAction` | controller/channel.go:1386-1689 | Saved over the row it was loaded from, each action is the single action the results above are about. |
| `MultiKeyRuns.SaveIsSoundIff` | model/channel.go:695-725 | Saving over a row what an action makes of an older copy leaves the size the number of keys and no status outside them if and only if the action saves the key column too, or saves nothing, or the row has as many keys as the copy; a row that has keys keeps some. |
| `MultiKeyRuns.RunsKeepSoundIff` | controller/channel.go:1250-1689 | Through every interleaving of loads and saves, blank keys or not, this holds after each event if and only if the save of each report on a key and of each polling finds as many keys as it loaded; management requests may overlap at will. |
| `MultiKeyRuns.RunsKeepAKey` | model/channel.go:506-553 | In every interleaving a channel that has keys keeps some. |
| `MultiKeyRuns.RunsKeepValidIff` | controller/channel.go:1250-1689 | The same condition decides whether a channel without blank keys stays so, with no time or reason outside its keys either. |
| `MultiKeyRuns.DeletionMiscounts` | model/channel.go:695-725 | Deleting any key of two or more between the load and the save of a report that disables a key leaves a size of one too many. |
| `MultiKeyRuns.DeletionShiftsReport` | model/channel.go:695-725 | If the deleted key came before the reported one, the reported key has the status of its predecessor and the report is recorded of its successor, if there is one. |
| `MultiKeyRuns.PollingUndoesReport` | model/channel.go:175-217 | Polling that loads before any report and saves after it leaves the channel as it was before the report. |
| `MultiKey.PositionOf` | model/channel.go:621-634 | Automatic disabling finds the key's position, and falls back to the first. |
| `MultiKey.PagesCover` | controller/channel.go:1347-1368 | The pages put together are the whole listing. |
| `MultiKey.PageFallsBack` | controller/channel.go:1347-1368 | Sizes and page numbers that are not positive mean 50 and 1, and a page past the end is the last. |
| `MultiKey.Channel.List` | controller/channel.go:1272-1333 | The loop builds the listing and counts every status exactly. |
| `MultiKey.CountStatusIs` | controller/channel.go:1290-1310 | What the statistics count is the number of keys with each status. |
| `MultiKey.Channel.RemoveKey` | controller/channel.go:1542-1620 | The rewriting loop saves over the row the deletion from the copy that was loaded, and refuses a bad index or the last key. |
| `MultiKey.Channel.RemoveDisabledKeys` | controller/channel.go:1622-1689 | The rewriting loop saves over the row the deletion from the copy that was loaded, and counts the deleted keys. |
| `MultiKey.Channel.TurnAllOff` | controller/channel.go:1495-1540 | The loop saves over the row the update of the copy that was loaded, and counts nothing exactly when nothing changes. |
| `MultiKey.Channel.AppendNewKeys` | controller/channel.go:877-950 | The trimming, collecting and deduplicating loops store what the append lemmas are about; without existing keys the input is stored as it is. |
| `MultiKey.DropSeen` | controller/channel.go:928-947 | The loop keeps, in order and each once, exactly the keys that have not been seen. |
| `VerifyPatrol.Patrol.Once` | controller/model_verify_patrol.go:49-132 | An undisturbed round judges every due channel once by its own verdict and changes no other. |
| `VerifyPatrol.Patrol.TestOne` | controller/model_verify_patrol.go:84-127 | The branches on one verdict compute the modelled status and counter. |
| `VerifyPatrol.TestedIff` | controller/model_verify_patrol.go:49-74 | A round tests a channel if and only if it is verified automatically, enabled or disabled by the patrol, has a model, and was last tested at least 300 seconds ago or never. |
| `VerifyPatrol.ScoreDecides` | controller/model_verify_patrol.go:84-127 | What a request error, a score of 70 or more and a lower one do to a single-key channel and its fail counter. |
| `VerifyPatrol.CounterIsParity` | controller/model_verify_patrol.go:84-127 | In every run the fail counter is the parity of the low verdicts while enabled since the last pass; request errors neither count nor reset. |
| `VerifyPatrol.StatusMoves` | controller/model_verify_patrol.go:90-127 | After any history, in an undisturbed round, a single-key channel turns verify-disabled if and only if it was enabled and the verdict is low with an odd number of lows since the last pass, and enabled if and only if it was verify-disabled and the verdict passes; no other status changes. |
| `VerifyPatrol.DisabledAfterTwoLows` | controller/model_verify_patrol.go:91-115 | In any run, on any channel: a reply that turns it verify-disabled is low and has an earlier low verdict while enabled behind it with no pass between. |
| `VerifyPatrol.TestsAreSpaced` | controller/model_verify_patrol.go:63-74 | After a test no round within the interval tests the channel again. |
| `VerifyPatrol.StaleListingOverrides` | controller/model_verify_patrol.go:135-154 | A manual or automatic disable made while a test is under way is overwritten exactly when the listed status and the verdict call for a switch. |
| `VerifyPatrol.ManualDisableIsUndone` | controller/model_verify_patrol.go:49-132 | There is a run in which the patrol enables a channel an administrator disabled. |
| `VerifyPatrol.DisableTakesEffectIff` | model/channel.go:621-657 | Disabling by the patrol makes a channel verify-disabled if and only if it is not a multi-key channel with keys; otherwise it stays enabled or turns auto-disabled. |
| `VerifyPatrol.EnableTakesEffectIff` | model/channel.go:621-657 | Enabling a channel the patrol disabled takes effect if and only if it is not a multi-key channel with keys; there only one key's entry goes. |
| `OggWalker.PageSize` | common/audio.go:241-245 | The loop sums the segment table. |
| `OggWalker.OpusDuration` | common/audio.go:196-254 | The loop computes the walk's largest granule position, over 48000. |
| `OggWalker.WalkFindsLargest` | common/audio.go:196-254 | The result is the largest granule among the page headers the walk visits, for every input. |
| `OggWalker.LargestIsMaximum` | common/audio.go:228-232 | That value bounds all visited granules and is one of them, or the initial zero. |
| `OggWalker.LittleEndianRoundTrip` | common/audio.go:228-229 | Little-endian bytes read back as the number, at any width. |
| `OggWalker.GranuleReadsBack` | common/audio.go:228-229 | Every signed 64-bit granule reads back from its eight bytes. |
| `OggWalker.PageIsRead` | common/audio.go:219-248 | An encoded page, anywhere in the data, is recognised, read with its granule and skipped exactly. |
| `OggWalker.WalkVisitsThePages` | common/audio.go:196-254 | On any concatenation of pages after noise without a capture pattern, the walk visits exactly the page starts and returns the largest granule of the pages. |
| `OggWalker.ResultIsGenuine` | common/audio.go:196-254 | On arbitrary bytes the result is zero or the granule of a header that is really there. |
| `OggWalker.LargestGranuleIsMaximum` | common/audio.go:196-254 | The reference result is the maximum of the pages' granules and zero. |
| `RatioDifferences.CollectModels` | controller/ratio_sync.go:413-433 | The loops collect the models of the local data and of every channel. |
| `RatioDifferences.CompareCell` | controller/ratio_sync.go:488-511 | A cell is the value, "same" or absent, and differs exactly when an upstream value is missing locally or not nearly equal. |
| `RatioDifferences.CellMeans` | controller/ratio_sync.go:488-511 | A cell shows the channel's value if there is none here or it is at least 10^-9 off, "missing" if only the channel has none, and "same" otherwise. |
| `RatioDifferences.ConfidentMeans` | controller/ratio_sync.go:440-465 | A channel is not trusted about a model exactly when it gives it input ratio 37.5 with completion ratio 1. |
| `RatioDifferences.CompareEntry` | controller/ratio_sync.go:473-526 | The loop over channels builds the entry and lists it exactly when some channel disagrees. |
| `RatioDifferences.CompareAll` | controller/ratio_sync.go:472-539 | The first pass lists exactly the models and types on which some channel disagrees. |
| `RatioDifferences.Mark` | controller/ratio_sync.go:541-550 | The marked channels are exactly those with a value in some listed entry. |
| `RatioDifferences.RestrictItem` | controller/ratio_sync.go:553-559 | Unmarked channels, and only they, leave an entry and its confidences. |
| `RatioDifferences.Prune` | controller/ratio_sync.go:552-578 | Entries and models are dropped exactly when nothing informative is left. |
| `RatioDifferences.MarkedAreListed` | controller/ratio_sync.go:541-550 | A name is marked if and only if the last channel of that name disagrees with the local data somewhere. |
| `RatioDifferences.SurvivesIffTelling` | controller/ratio_sync.go:552-578 | Pruning keeps an entry if and only if some marked channel shows something other than agreement there. |
| `RatioDifferences.EntrySurvives` | controller/ratio_sync.go:552-578 | With distinct channel names that is so wherever some channel disagrees. |
| `RatioDifferences.NamesakeHidesDifference` | controller/ratio_sync.go:488-511 | Of two channels of one name, the first disagreeing and the second nowhere, the difference is found and not shown. |
| `RatioDifferences.BuildDifferences` | controller/ratio_sync.go:407-581 | For any channels the result has an entry exactly where some channel disagrees with the local value and some marked one shows it, with each name's last channel speaking for it; with distinct names exactly where some channel disagrees. |
| `PriceSelection.SortedKeys` | controller/ratio_sync.go:800-804 | The names come out once each in strict byte order. |
| `PriceSelection.LessIsLexicographic` | controller/ratio_sync.go:800-804 | In that order the first difference decides, and a prefix comes first. |
| `PriceSelection.OfferIff` | controller/ratio_sync.go:728-763 | Exactly which costs make an offer, and that it carries the provider's own input, output and cache costs. |
| `PriceSelection.SelectFromProvider` | controller/ratio_sync.go:807-829 | One provider's offers replace exactly where they are better. |
| `PriceSelection.SelectCandidates` | controller/ratio_sync.go:791-829 | The loops select for every model the well-picked offer over all providers in sorted order. |
| `PriceSelection.PickIsCheapest` | controller/ratio_sync.go:766-778 | The pick is an offer, non-zero whenever some offer is, and then less than epsilon above the cheapest non-zero one; among equally priced offers the first provider's. |
| `PriceSelection.SelectionIsDeterministic` | controller/ratio_sync.go:800-829 | The selection does not depend on the order in which a map yields its providers. |
| `PricingSync.MergeLoop` | controller/upstream_pricing_sync.go:518-549 | The loop merges the models, counts every one as added or updated, and the added ones are the names that become known. |
| `PricingSync.PricingOptions.SyncUpstream` | controller/upstream_pricing_sync.go:494-575 | A sync saves the settings as they were and stores the merge; an empty model list changes nothing. |
| `PricingSync.PricingOptions.SaveBackup` | controller/upstream_pricing_sync.go:590-617 | The newest backup is first and at most twenty are kept. |
| `PricingSync.PricingOptions.Restore` | controller/upstream_pricing_sync.go:637-681 | A valid index writes that backup, any other changes nothing. |
| `PricingSync.PutAllTwice` | controller/upstream_pricing_sync.go:518-549 | Writing a model list into a ratio table twice is writing it once. |
| `PricingSync.SyncIsIdempotent` | controller/upstream_pricing_sync.go:494-575 | Repeating a sync with the same upstream answer changes no setting, duplicates in the answer included. |
| `PricingSync.SyncFollowsUpstream` | controller/upstream_pricing_sync.go:518-549 | The last upstream entry of a name decides its price or ratio, its completion ratio unless 0 or 1, and its cache ratios if given. |
| `PricingSync.SyncKeepsUnlisted` | controller/upstream_pricing_sync.go:518-549 | A name upstream does not list keeps all its options. |
| `PricingSync.SyncKeepsOldValues` | controller/upstream_pricing_sync.go:533-549 | A sync writes no more than upstream says: a price stays when upstream lists the name by ratio only, a ratio when by price only, a completion ratio when upstream gives 0 or 1, a cache or cache-creation ratio when it gives none. |
| `PricingSync.SyncedGroupsIff` | controller/upstream_pricing_sync.go:551-575 | The requested group ratios are in force after a sync, and every other group keeps its own, if and only if that leaves no negative ratio or changes nothing; otherwise all group ratios stay. Without models nothing is written. |
| `PricingSync.BilledAsListedIff` | relay/helper/price.go:49-64 | A name is billed as its last upstream entry says if and only if that entry has a price, or neither the settings nor any upstream entry of the name had one. |
| `PricingSync.CompletionGoneIff` | controller/upstream_pricing_sync.go:539-541 | A name is left without a completion ratio if and only if it had none and no upstream entry of it gives one. |
| `PricingSync.OldPriceStays` | controller/upstream_pricing_sync.go:533-537 | A model billed at 3 per call that upstream lists at ratio 2 is still billed at 3. |
| `PricingSync.BackupsAreSnapshots` | controller/upstream_pricing_sync.go:590-617 | After any run the backups are the settings before each of the last twenty syncs, newest first. |
| `PricingSync.RestoreBringsBack` | controller/upstream_pricing_sync.go:637-681 | Restoring a backup brings back the settings before that sync if and only if its group ratios pass their check or are unchanged. |
| `PricingSync.GroupRatiosStayValid` | setting/ratio_setting/group_ratio.go:113-125 | If no edit stores a negative group ratio, no sync or restore does, and no backup holds one. |
| `Retention.BuildMaps` | audit/retention.go:143-152 | The loop splits the policies into the groups' own days and the global days. |
| `Retention.DaysThatApply` | audit/retention.go:143-152 | The days that apply to a group are those of its own policy, else of the policy for all, else 30. |
| `Retention.CleanGroups` | audit/retention.go:160-174 | The loop deletes exactly the documents outlived by their group's own policy whose deletion does not fail, and counts them. |
| `Retention.RunCleanup` | audit/retention.go:132-196 | Both phases together delete exactly the modelled documents, and the total is their number. |
| `Retention.TwoPhases` | audit/retention.go:160-191 | A document is deleted by one phase or the other as its group has or lacks an own policy. |
| `Retention.CutoffIsExactIff` | audit/retention.go:166 | The cutoff computed with a 64-bit duration is the exact one if and only if the retention is at most 106751 days. |
| `Retention.CleanupFollowsPolicies` | audit/retention.go:132-196 | With such retentions a document is deleted if and only if it has outlived the effective policy of its group. |
| `Retention.CleanupFollowsPoliciesIff` | audit/retention.go:132-196 | On documents created between 1970 and now the cleaner follows the policies if and only if every retention is at most 106751 days or its wrapped cutoff is not positive. |
| `Retention.LongRetentionDeletesAll` | audit/retention.go:166-167 | From 106752 to 213503 days every document of the group is deleted, the newest included, though none has outlived its policy. |
| `Retention.FailuresSpare` | audit/retention.go:160-191 | A failing deletion only leaves documents; it never deletes more. |

## Left out

- Several nodes: OrderLocks models the mutexes of one process, as the source has them; two nodes share no mutex.
- OrderLocks.EveryRunCanFinish: promises a continuation, not fairness of the Go scheduler.
- OrderOutcomes.GrantsAreForTheStoredOrder: the float arithmetic of Recharge is over reals.
- TopUpAmounts.AcceptedRequestCredits: does not model int64 overflow of the minimum for extreme settings.
- BillingSession.Billing.Open: opens on one funding source; the choice by preference is OpenByPreference. The search over several subscriptions of a user is not modelled.
- BillingSession.RunsConserve: the Redis copies of the balances and the batched writes are not modelled; a batched write counts as done. A pre-consumption is one step and so is a refund's goroutine, though each makes several writes; another session's write between them is not modelled.
- BillingSession.UsageStaysSum: the run statement goes one way; UsageKeptIff gives the exact condition step by step.
- BodyStorage.MemoryStorage.Read: a read of zero bytes at the end of the body gives end of file here and nothing on disk; the common statement admits both.
- RateLimiter.LimiterIsExact: the clock does not go back.
- RateLimiter.QueueAnswersWindow: limits are not negative; on a negative one the source panics at a key's first request.
- RuleCache.RunsKeepInv: freshness is tied to edits, not to the two-minute lifetime, since all groups share one load time.
- RuleScan.ScanPrompt: lower-casing and regular-expression matching are parameters, and so is decoding the JSON list of patterns.
- UpstreamCopies.RunsKeepInvIff: like RunsKeepTidy, for upstream names without commas; ConvergesIffCommaFree shows what commas do. Edits of the channel form, which writes models and settings too, are not among the events.
- UpstreamCopies.IgnoredIsNeverServed: goes one way; whether a copy that serves an ignored name ever writes its models depends on what is pending in it.
- MultiKey.DeleteKeyFilters: keys in newline form; the JSON-array form of service-account keys is not modelled.
- MultiKeyRuns.RunsKeepValidIff: starts from a channel that has keys and no blank one; RunsKeepSoundIff is for all.
- MultiKeyRuns.RunsKeepSoundIff: replacing the whole key list in the channel form is not among the actions, nor is the save that clears channel settings which cannot be decoded. The polling index itself is not modelled.
- VerifyPatrol.Patrol.Once: no edit during the round; edits between listing and verdict are in the run statements. Writing a status is one step, from a row loaded in that step. The memory cache in front of the database is not modelled.
- PricingSync.PricingOptions.SyncUpstream: each handler is one step; two syncs, or a sync and an edit of the options, that overlap are not modelled.
- PricingSync.BilledAsListedIff: looks names up as they are; the wildcard and suffix names of the price lookup are not modelled.
- RatioDifferences, PriceSelection, PricingSync: ratios are reals, and JSON decoding of the upstream answers is not modelled.
- Retention.CleanupFollowsPolicies: retention days are non-negative, as the policy handler enforces. The operations on the policy table are not modelled.
- Notifications, logging, HTTP handling, signature checks and the provider adaptors are not modelled.
