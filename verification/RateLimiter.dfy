/** The in-memory sliding-window rate limiter: a bounded queue of accepted times per key, and a background sweep
    that drops idle keys.  Times are whole seconds; the clock is a parameter of every call. */
module RateLimiter {

  /** What the middleware passes for a key.  The limit is not negative: making the queue of a new key would panic. */
  datatype Limit = Limit(max: nat, duration: int)

  type Store = map<string, seq<int>>

  /** Queues in the store are never empty: a key enters with its first accepted time. */
  ghost predicate NonEmptyQueues(store: Store) {
    forall k :: k in store ==> |store[k]| > 0
  }

  function Decide(store: Store, key: string, limit: Limit, now: int): (Store, bool)
    requires NonEmptyQueues(store)
  {
    if key !in store then (store[key := [now]], true)
    else
      var queue := store[key];
      if |queue| < limit.max then (store[key := queue + [now]], true)
      else if now - queue[0] >= limit.duration then (store[key := queue[1..] + [now]], true)
      else (store, false)
  }

  function Swept(store: Store, expiration: int, now: int): Store
    requires NonEmptyQueues(store)
  {
    map k | k in store && now - store[k][|store[k]| - 1] <= expiration :: store[k]
  }

  class InMemoryRateLimiter {
    var store: Store
    const expiration: int

    ghost predicate Valid()
      reads this
    {
      NonEmptyQueues(store)
    }

    constructor (expiration: int)
      ensures Valid() && store == map[] && this.expiration == expiration
    {
      store := map[];
      this.expiration := expiration;
    }

    method Request(key: string, limit: Limit, now: int) returns (ok: bool)
      requires Valid()
      modifies this
      ensures Valid()
      ensures (store, ok) == Decide(old(store), key, limit, now)
    {
      if key in store {
        var queue := store[key];
        if |queue| < limit.max {
          store := store[key := queue + [now]];
          return true;
        } else if now - queue[0] >= limit.duration {
          queue := queue[1..];
          store := store[key := queue + [now]];
          return true;
        } else {
          return false;
        }
      } else {
        store := store[key := []];
        store := store[key := store[key] + [now]];
        assert [] + [now] == [now];
        assert store == old(store)[key := [now]];
      }
      return true;
    }

    /** One round of clearExpiredItems, visiting the keys in any order. */
    method Sweep(now: int)
      requires Valid()
      modifies this
      ensures Valid()
      ensures store == Swept(old(store), expiration, now)
    {
      var keys := store.Keys;
      while keys != {}
        invariant keys <= store.Keys <= old(store).Keys
        invariant forall k :: k in store ==> store[k] == old(store)[k]
        invariant forall k :: k in old(store) && k !in keys ==>
                    (k in store <==> now - old(store)[k][|old(store)[k]| - 1] <= expiration)
        decreases |keys|
      {
        var key :| key in keys;
        keys := keys - {key};
        var queue := store[key];
        var size := |queue|;
        if size == 0 || now - queue[size - 1] > expiration {
          store := store - {key};
        }
      }
    }
  }

  // ---------- whole runs ----------

  datatype Event = Ask(key: string, now: int) | Tick(now: int)

  ghost predicate Monotone(es: seq<Event>) {
    forall i, j :: 0 <= i < j < |es| ==> es[i].now <= es[j].now
  }

  function Serve(limits: string -> Limit, expiration: int, store: Store, e: Event): (r: (Store, seq<bool>))
    requires NonEmptyQueues(store)
    ensures NonEmptyQueues(r.0)
  {
    match e
    case Tick(now) => (Swept(store, expiration, now), [])
    case Ask(key, now) => var (store', ok) := Decide(store, key, limits(key), now); (store', [ok])
  }

  /** The limiter's state and the answers it has given after a run. */
  function Exec(limits: string -> Limit, expiration: int, es: seq<Event>): (r: (Store, seq<bool>))
    ensures NonEmptyQueues(r.0)
  {
    if es == [] then (map[], [])
    else
      var (store, answers) := Exec(limits, expiration, es[..|es| - 1]);
      var (store', more) := Serve(limits, expiration, store, es[|es| - 1]);
      (store', answers + more)
  }

  type Log = map<string, seq<int>>

  /** The rule "accept while fewer than the capacity were accepted in the last `duration` seconds". */
  function Judge(limits: string -> Limit, log: Log, e: Event): (Log, seq<bool>) {
    match e
    case Tick(_) => (log, [])
    case Ask(key, now) =>
      var times := TimesOf(log, key);
      if InWindow(times, now, limits(key).duration) < Capacity(limits(key))
      then (log[key := times + [now]], [true]) else (log, [false])
  }

  /** The reference limiter: keeps every accepted time and ignores sweeps. */
  function Reference(limits: string -> Limit, es: seq<Event>): (Log, seq<bool>) {
    if es == [] then (map[], [])
    else
      var (log, answers) := Reference(limits, es[..|es| - 1]);
      var (log', more) := Judge(limits, log, es[|es| - 1]);
      (log', answers + more)
  }

  function TimesOf(log: Log, key: string): seq<int> {
    if key in log then log[key] else []
  }

  /** A limit of zero still admits one: the first request of a key never looks at it. */
  function Capacity(limit: Limit): (c: int)
    ensures c >= 1
  {
    if limit.max == 0 then 1 else limit.max
  }

  /** How many of `times` lie in the `duration` seconds before `now`. */
  function InWindow(times: seq<int>, now: int, duration: int): nat {
    if times == [] then 0
    else InWindow(times[..|times| - 1], now, duration) + if now - times[|times| - 1] < duration then 1 else 0
  }

  ghost predicate Sorted(times: seq<int>) {
    forall i, j :: 0 <= i < j < |times| ==> times[i] <= times[j]
  }

  ghost predicate Gone(times: seq<int>, now: int, duration: int) {
    forall i :: 0 <= i < |times| ==> now - times[i] >= duration
  }

  lemma {:induction false} InWindowOfConcat(a: seq<int>, b: seq<int>, now: int, duration: int)
    ensures InWindow(a + b, now, duration) == InWindow(a, now, duration) + InWindow(b, now, duration)
    decreases |b|
  {
    if b == [] {
      assert a + b == a;
    } else {
      assert (a + b)[..|a + b| - 1] == a + b[..|b| - 1];
      InWindowOfConcat(a, b[..|b| - 1], now, duration);
    }
  }

  lemma {:induction false} InWindowBounds(times: seq<int>, now: int, duration: int)
    ensures InWindow(times, now, duration) <= |times|
    ensures Gone(times, now, duration) ==> InWindow(times, now, duration) == 0
    ensures (forall i :: 0 <= i < |times| ==> now - times[i] < duration) ==> InWindow(times, now, duration) == |times|
  {
    if times != [] { InWindowBounds(times[..|times| - 1], now, duration); }
  }

  /** How a queue stands for all accepted times of its key: it is their tail, no longer than the capacity, and what is
      missing is out of the window unless the queue is full. */
  ghost predicate IsTail(queue: seq<int>, times: seq<int>, limit: Limit, now: int) {
    && 1 <= |queue| <= Capacity(limit) && |queue| <= |times|
    && times[|times| - |queue|..] == queue
    && (|queue| < Capacity(limit) ==> Gone(times[..|times| - |queue|], now, limit.duration))
  }

  ghost predicate InTime(times: seq<int>, now: int) {
    Sorted(times) && forall i :: 0 <= i < |times| ==> times[i] <= now
  }

  ghost predicate Represents(store: Store, times: seq<int>, key: string, limit: Limit, now: int) {
    && InTime(times, now)
    && if key !in store then Gone(times, now, limit.duration) else IsTail(store[key], times, limit, now)
  }

  /** With the newest |queue| times kept, that many lie in the window exactly when the oldest kept one does. */
  lemma OldestKeptDecides(missing: seq<int>, queue: seq<int>, now: int, duration: int)
    requires queue != [] && Sorted(missing + queue)
    ensures InWindow(missing + queue, now, duration) < |queue| <==> now - queue[0] >= duration
  {
    var times := missing + queue;
    forall i | 0 <= i < |missing| ensures missing[i] <= queue[0] {
      assert missing[i] == times[i] && queue[0] == times[|missing|];
    }
    forall i | 1 <= i < |queue| ensures queue[0] <= queue[i] {
      assert queue[0] == times[|missing|] && queue[i] == times[|missing| + i];
    }
    InWindowOfConcat(missing, queue, now, duration);
    InWindowBounds(missing, now, duration);
    InWindowBounds(queue, now, duration);
    if now - queue[0] >= duration {
      assert queue == queue[..1] + queue[1..];
      InWindowOfConcat(queue[..1], queue[1..], now, duration);
      InWindowBounds(queue[..1], now, duration);
      InWindowBounds(queue[1..], now, duration);
    }
  }

  /** With everything that is not kept out of the window, at most the kept ones are in it. */
  lemma KeptBoundWindow(missing: seq<int>, queue: seq<int>, now: int, duration: int)
    requires Gone(missing, now, duration)
    ensures InWindow(missing + queue, now, duration) <= |queue|
  {
    InWindowOfConcat(missing, queue, now, duration);
    InWindowBounds(missing, now, duration);
    InWindowBounds(queue, now, duration);
  }

  lemma TailAnswers(queue: seq<int>, times: seq<int>, limit: Limit, before: int, now: int)
    requires InTime(times, before) && IsTail(queue, times, limit, before) && before <= now
    ensures |queue| < limit.max || now - queue[0] >= limit.duration <==>
              InWindow(times, now, limit.duration) < Capacity(limit)
  {
    var missing := times[..|times| - |queue|];
    assert times == missing + queue;
    if |queue| == Capacity(limit) {
      OldestKeptDecides(missing, queue, now, limit.duration);
    } else {
      KeptBoundWindow(missing, queue, now, limit.duration);
    }
  }

  /** A represented queue answers as the count of the window does. */
  lemma QueueAnswersWindow(store: Store, times: seq<int>, key: string, limit: Limit, before: int, now: int)
    requires NonEmptyQueues(store) && Represents(store, times, key, limit, before) && before <= now
    ensures Decide(store, key, limit, now).1 <==> InWindow(times, now, limit.duration) < Capacity(limit)
  {
    if key !in store {
      InWindowBounds(times, now, limit.duration);
    } else {
      TailAnswers(store[key], times, limit, before, now);
    }
  }

  lemma TailGrows(times: seq<int>, queue: seq<int>, dropped: nat, now: int)
    requires |queue| <= |times| && times[|times| - |queue|..] == queue && dropped <= |queue|
    ensures var times', queue' := times + [now], queue[dropped..] + [now];
            && times'[|times'| - |queue'|..] == queue'
            && (dropped == 0 ==> times'[..|times'| - |queue'|] == times[..|times| - |queue|])
  {
  }

  lemma PushKeepsTail(queue: seq<int>, times: seq<int>, limit: Limit, before: int, now: int)
    requires IsTail(queue, times, limit, before) && before <= now
    ensures |queue| < limit.max ==> IsTail(queue + [now], times + [now], limit, now)
    ensures |queue| >= limit.max ==> IsTail(queue[1..] + [now], times + [now], limit, now)
    ensures IsTail(queue, times, limit, now)
  {
    assert queue[0..] == queue;
    TailGrows(times, queue, 0, now);
    TailGrows(times, queue, 1, now);
  }

  lemma AskKeepsRepresentation(store: Store, times: seq<int>, key: string, limit: Limit, before: int, now: int)
    requires NonEmptyQueues(store) && Represents(store, times, key, limit, before) && before <= now
    ensures var (store', ok) := Decide(store, key, limit, now);
            Represents(store', if ok then times + [now] else times, key, limit, now)
  {
    if key in store {
      PushKeepsTail(store[key], times, limit, before, now);
    } else {
      assert (times + [now])[|times + [now]| - 1..] == [now];
      assert (times + [now])[..|times + [now]| - 1] == times;
    }
  }

  lemma TickKeepsRepresentation(store: Store, times: seq<int>, key: string, limit: Limit, before: int, now: int,
                                expiration: int)
    requires NonEmptyQueues(store) && Represents(store, times, key, limit, before) && before <= now
    requires limit.duration <= expiration + 1
    ensures Represents(Swept(store, expiration, now), times, key, limit, now)
  {
    if key in store && key !in Swept(store, expiration, now) {
      assert store[key][|store[key]| - 1] == times[|times| - 1];
    }
  }

  lemma LaterStillRepresents(store: Store, store': Store, times: seq<int>, key: string, limit: Limit, before: int, now: int)
    requires Represents(store, times, key, limit, before) && before <= now
    requires if key in store then key in store' && store'[key] == store[key] else key !in store'
    ensures Represents(store', times, key, limit, now)
  {
  }

  /** `limits` give windows no longer than the sweep can leave alone. */
  ghost predicate WindowsFit(limits: string -> Limit, expiration: int) {
    forall k :: limits(k).duration <= expiration + 1
  }

  lemma AskAnswers(limits: string -> Limit, store: Store, log: Log, key: string, now: int, before: int)
    requires NonEmptyQueues(store) && before <= now && Represents(store, TimesOf(log, key), key, limits(key), before)
    ensures Judge(limits, log, Ask(key, now)).1 == [Decide(store, key, limits(key), now).1]
    ensures TimesOf(Judge(limits, log, Ask(key, now)).0, key) ==
            if Decide(store, key, limits(key), now).1 then TimesOf(log, key) + [now] else TimesOf(log, key)
  {
    QueueAnswersWindow(store, TimesOf(log, key), key, limits(key), before, now);
  }

  lemma AskRepresentsOther(limits: string -> Limit, store: Store, log: Log, asked: string, now: int, key: string,
                           before: int)
    requires NonEmptyQueues(store) && before <= now && asked != key
    requires Represents(store, TimesOf(log, key), key, limits(key), before)
    ensures TimesOf(Judge(limits, log, Ask(asked, now)).0, key) == TimesOf(log, key)
    ensures Represents(Decide(store, asked, limits(asked), now).0, TimesOf(log, key), key, limits(key), now)
  {
    LaterStillRepresents(store, Decide(store, asked, limits(asked), now).0, TimesOf(log, key), key, limits(key),
                         before, now);
  }

  lemma StepRepresents(limits: string -> Limit, expiration: int, store: Store, log: Log, e: Event, key: string, before: int)
    requires NonEmptyQueues(store) && before <= e.now && WindowsFit(limits, expiration)
    requires Represents(store, TimesOf(log, key), key, limits(key), before)
    requires e.Ask? ==> Represents(store, TimesOf(log, e.key), e.key, limits(e.key), before)
    ensures Serve(limits, expiration, store, e).1 == Judge(limits, log, e).1
    ensures Represents(Serve(limits, expiration, store, e).0, TimesOf(Judge(limits, log, e).0, key), key, limits(key), e.now)
  {
    match e
    case Tick(_) => TickKeepsRepresentation(store, TimesOf(log, key), key, limits(key), before, e.now, expiration);
    case Ask(asked, now) =>
      AskAnswers(limits, store, log, asked, now, before);
      if asked == key {
        AskKeepsRepresentation(store, TimesOf(log, key), key, limits(key), before, now);
      } else {
        AskRepresentsOther(limits, store, log, asked, now, key, before);
      }
  }

  lemma {:induction false} RunsRepresent(limits: string -> Limit, expiration: int, es: seq<Event>, now: int)
    requires Monotone(es) && WindowsFit(limits, expiration) && (es != [] ==> es[|es| - 1].now <= now)
    ensures Exec(limits, expiration, es).1 == Reference(limits, es).1
    ensures forall k :: Represents(Exec(limits, expiration, es).0, TimesOf(Reference(limits, es).0, k), k, limits(k), now)
  {
    if es != [] {
      var init, e := es[..|es| - 1], es[|es| - 1];
      RunsRepresent(limits, expiration, init, e.now);
      var store, log := Exec(limits, expiration, init).0, Reference(limits, init).0;
      if e.Ask? { StepRepresents(limits, expiration, store, log, e, e.key, e.now); }
      forall k
        ensures Represents(Exec(limits, expiration, es).0, TimesOf(Reference(limits, es).0, k), k, limits(k), now)
      {
        StepRepresents(limits, expiration, store, log, e, k, e.now);
        var store := Exec(limits, expiration, es).0;
        LaterStillRepresents(store, store, TimesOf(Reference(limits, es).0, k), k, limits(k), e.now, now);
      }
    }
  }

  // ---------- main results ----------

  /** In every run of requests and sweeps with a clock that does not go back, the limiter answers exactly as the
      reference does, provided no window is longer than the sweep's expiration plus one second. */
  lemma LimiterIsExact(limits: string -> Limit, expiration: int, es: seq<Event>)
    requires Monotone(es) && WindowsFit(limits, expiration)
    ensures Exec(limits, expiration, es).1 == Reference(limits, es).1
  {
    if es != [] { RunsRepresent(limits, expiration, es, es[|es| - 1].now); }
  }

  function WithoutTicks(es: seq<Event>): seq<Event> {
    if es == [] then []
    else WithoutTicks(es[..|es| - 1]) + if es[|es| - 1].Tick? then [] else [es[|es| - 1]]
  }

  lemma {:induction false} WithoutTicksStaysMonotone(es: seq<Event>)
    requires Monotone(es)
    ensures Monotone(WithoutTicks(es))
    ensures forall e :: e in WithoutTicks(es) ==> e.now <= es[|es| - 1].now
  {
    if es != [] {
      WithoutTicksStaysMonotone(es[..|es| - 1]);
    }
  }

  lemma {:induction false} ReferenceIgnoresTicks(limits: string -> Limit, es: seq<Event>)
    ensures Reference(limits, WithoutTicks(es)) == Reference(limits, es)
  {
    if es != [] {
      var init, e := es[..|es| - 1], es[|es| - 1];
      ReferenceIgnoresTicks(limits, init);
      if e.Ask? {
        assert WithoutTicks(es)[..|WithoutTicks(es)| - 1] == WithoutTicks(init);
      } else {
        assert WithoutTicks(es) == WithoutTicks(init);
        var answers := Reference(limits, init).1;
        assert answers + [] == answers;
      }
    }
  }

  /** The sweep is unobservable: a run and the same run without its sweeps give the same answers. */
  lemma SweepsAreUnobservable(limits: string -> Limit, expiration: int, es: seq<Event>)
    requires Monotone(es) && WindowsFit(limits, expiration)
    ensures Exec(limits, expiration, es).1 == Exec(limits, expiration, WithoutTicks(es)).1
  {
    WithoutTicksStaysMonotone(es);
    LimiterIsExact(limits, expiration, es);
    LimiterIsExact(limits, expiration, WithoutTicks(es));
    ReferenceIgnoresTicks(limits, es);
  }

  /** Any capacity-plus-one consecutive acceptances span at least a window. */
  ghost predicate Spaced(times: seq<int>, limit: Limit) {
    forall i :: 0 <= i < |times| - Capacity(limit) ==> times[i + Capacity(limit)] - times[i] >= limit.duration
  }

  lemma AcceptKeepsSpaced(times: seq<int>, limit: Limit, now: int)
    requires Sorted(times) && Spaced(times, limit) && InWindow(times, now, limit.duration) < Capacity(limit)
    ensures Spaced(times + [now], limit)
  {
    var c := Capacity(limit);
    forall i | 0 <= i < |times| + 1 - c ensures (times + [now])[i + c] - (times + [now])[i] >= limit.duration {
      if i + c == |times| {
        assert times == times[..i] + times[i..];
        OldestKeptDecides(times[..i], times[i..], now, limit.duration);
      } else {
        assert times[i + c] - times[i] >= limit.duration;
      }
    }
  }

  ghost predicate OrderlyUpTo(times: seq<int>, limit: Limit, now: int) {
    Sorted(times) && (forall i :: 0 <= i < |times| ==> times[i] <= now) && Spaced(times, limit)
  }

  lemma AcceptKeepsOrder(times: seq<int>, limit: Limit, now: int)
    requires OrderlyUpTo(times, limit, now) && InWindow(times, now, limit.duration) < Capacity(limit)
    ensures OrderlyUpTo(times + [now], limit, now)
  {
    AcceptKeepsSpaced(times, limit, now);
  }

  /** What the reference accepts is in order and spaced. */
  lemma {:induction false} ReferenceIsSpaced(limits: string -> Limit, es: seq<Event>, key: string, now: int)
    requires Monotone(es) && (es != [] ==> es[|es| - 1].now <= now)
    ensures OrderlyUpTo(TimesOf(Reference(limits, es).0, key), limits(key), now)
  {
    if es != [] {
      var init, e := es[..|es| - 1], es[|es| - 1];
      ReferenceIsSpaced(limits, init, key, e.now);
      var times := TimesOf(Reference(limits, init).0, key);
      if e.Ask? && e.key == key && InWindow(times, e.now, limits(key).duration) < Capacity(limits(key)) {
        AcceptKeepsOrder(times, limits(key), e.now);
        assert TimesOf(Reference(limits, es).0, key) == times + [e.now];
      } else {
        assert TimesOf(Reference(limits, es).0, key) == times;
      }
    }
  }

  /** The times at which the limiter accepted requests of a key. */
  function Accepted(limits: string -> Limit, expiration: int, es: seq<Event>, key: string): seq<int> {
    if es == [] then []
    else
      var init, e := es[..|es| - 1], es[|es| - 1];
      Accepted(limits, expiration, init, key) +
      if e.Ask? && e.key == key && Serve(limits, expiration, Exec(limits, expiration, init).0, e).1 == [true]
      then [e.now] else []
  }

  lemma JudgedTimes(limits: string -> Limit, log: Log, e: Event, key: string)
    ensures TimesOf(Judge(limits, log, e).0, key) ==
            TimesOf(log, key) + if e.Ask? && e.key == key && Judge(limits, log, e).1 == [true] then [e.now] else []
  {
  }

  lemma {:induction false} AcceptedAreReferences(limits: string -> Limit, expiration: int, es: seq<Event>, key: string)
    requires Monotone(es) && WindowsFit(limits, expiration)
    ensures Accepted(limits, expiration, es, key) == TimesOf(Reference(limits, es).0, key)
  {
    if es != [] {
      var init, e := es[..|es| - 1], es[|es| - 1];
      AcceptedAreReferences(limits, expiration, init, key);
      SameAnswer(limits, expiration, init, e);
      JudgedTimes(limits, Reference(limits, init).0, e, key);
    }
  }

  lemma SameAnswer(limits: string -> Limit, expiration: int, init: seq<Event>, e: Event)
    requires Monotone(init) && WindowsFit(limits, expiration) && (init != [] ==> init[|init| - 1].now <= e.now)
    ensures Serve(limits, expiration, Exec(limits, expiration, init).0, e).1 ==
            Judge(limits, Reference(limits, init).0, e).1
  {
    RunsRepresent(limits, expiration, init, e.now);
    if e.Ask? {
      StepRepresents(limits, expiration, Exec(limits, expiration, init).0, Reference(limits, init).0, e, e.key, e.now);
    }
  }

  /** How many of `times` lie in [from, to). */
  function CountIn(times: seq<int>, from: int, to: int): nat {
    if times == [] then 0
    else CountIn(times[..|times| - 1], from, to) + if from <= times[|times| - 1] < to then 1 else 0
  }

  lemma {:induction false} CountInBounds(times: seq<int>, from: int, to: int)
    ensures CountIn(times, from, to) <= |times|
    ensures (forall i :: 0 <= i < |times| ==> times[i] < from) ==> CountIn(times, from, to) == 0
  {
    if times != [] { CountInBounds(times[..|times| - 1], from, to); }
  }

  lemma {:induction false} CountInConcat(a: seq<int>, b: seq<int>, from: int, to: int)
    ensures CountIn(a + b, from, to) == CountIn(a, from, to) + CountIn(b, from, to)
    decreases |b|
  {
    if b == [] {
      assert a + b == a;
    } else {
      assert (a + b)[..|a + b| - 1] == a + b[..|b| - 1];
      CountInConcat(a, b[..|b| - 1], from, to);
    }
  }

  lemma SpacedPrefix(times: seq<int>, limit: Limit)
    requires times != [] && Sorted(times) && Spaced(times, limit)
    ensures Sorted(times[..|times| - 1]) && Spaced(times[..|times| - 1], limit)
  {
    var init, c := times[..|times| - 1], Capacity(limit);
    forall i | 0 <= i < |init| - c ensures init[i + c] - init[i] >= limit.duration {
      assert times[i + c] - times[i] >= limit.duration;
    }
  }

  /** If the last time lies before the window's end, all but the last capacity many lie before its beginning. */
  lemma OldOnesAreOut(times: seq<int>, limit: Limit, t: int, i: nat)
    requires Sorted(times) && Spaced(times, limit) && i + Capacity(limit) < |times|
    requires times[|times| - 1] < t + limit.duration
    ensures times[i] < t
  {
    assert times[i + Capacity(limit)] - times[i] >= limit.duration;
  }

  lemma CountInTail(times: seq<int>, k: nat, from: int, to: int)
    requires k <= |times| && forall i :: 0 <= i < k ==> times[i] < from
    ensures CountIn(times, from, to) <= |times| - k
  {
    assert times == times[..k] + times[k..];
    CountInConcat(times[..k], times[k..], from, to);
    CountInBounds(times[..k], from, to);
    CountInBounds(times[k..], from, to);
  }

  lemma {:induction false} SpacedFitsWindow(times: seq<int>, limit: Limit, t: int)
    requires Sorted(times) && Spaced(times, limit)
    ensures CountIn(times, t, t + limit.duration) <= Capacity(limit)
  {
    var n, c := |times|, Capacity(limit);
    if n <= c {
      CountInBounds(times, t, t + limit.duration);
    } else if times[n - 1] < t + limit.duration {
      forall i | 0 <= i < n - c ensures times[i] < t { OldOnesAreOut(times, limit, t, i); }
      CountInTail(times, n - c, t, t + limit.duration);
    } else {
      SpacedPrefix(times, limit);
      SpacedFitsWindow(times[..n - 1], limit, t);
    }
  }

  lemma ReferenceFitsWindow(limits: string -> Limit, es: seq<Event>, key: string, t: int)
    requires Monotone(es)
    ensures CountIn(TimesOf(Reference(limits, es).0, key), t, t + limits(key).duration) <= Capacity(limits(key))
  {
    ReferenceIsSpaced(limits, es, key, if es == [] then 0 else es[|es| - 1].now);
    SpacedFitsWindow(TimesOf(Reference(limits, es).0, key), limits(key), t);
  }

  /** In every run of the limiter, sweeps included, at most the capacity of the accepted requests of a key fall into any
      window of `duration` seconds, wherever it begins. */
  lemma WindowsNeverOverfill(limits: string -> Limit, expiration: int, es: seq<Event>, key: string, t: int)
    requires Monotone(es) && WindowsFit(limits, expiration)
    ensures CountIn(Accepted(limits, expiration, es, key), t, t + limits(key).duration) <= Capacity(limits(key))
  {
    AcceptedAreReferences(limits, expiration, es, key);
    ReferenceFitsWindow(limits, es, key, t);
  }

  function Zeros(n: nat): (z: seq<int>)
    ensures |z| == n && forall i :: 0 <= i < n ==> z[i] == 0
  {
    seq(n, _ => 0)
  }

  function Asks(key: string, n: nat): (es: seq<Event>)
    ensures |es| == n && forall i :: 0 <= i < n ==> es[i] == Ask(key, 0)
  {
    seq(n, _ => Ask(key, 0))
  }

  lemma ZerosInWindow(n: nat, now: int, duration: int)
    requires now < duration
    ensures InWindow(Zeros(n), now, duration) == n
  {
    InWindowBounds(Zeros(n), now, duration);
  }

  lemma OneMore(limits: string -> Limit, expiration: int, es: seq<Event>, e: Event)
    ensures Exec(limits, expiration, es + [e]).0 == Serve(limits, expiration, Exec(limits, expiration, es).0, e).0
    ensures Exec(limits, expiration, es + [e]).1
            == Exec(limits, expiration, es).1 + Serve(limits, expiration, Exec(limits, expiration, es).0, e).1
    ensures Reference(limits, es + [e]).0 == Judge(limits, Reference(limits, es).0, e).0
    ensures Reference(limits, es + [e]).1 == Reference(limits, es).1 + Judge(limits, Reference(limits, es).0, e).1
  {
    assert (es + [e])[..|es + [e]| - 1] == es;
  }

  lemma DecideWithRoom(key: string, limit: Limit, queue: seq<int>, now: int)
    requires 0 < |queue| < limit.max
    ensures NonEmptyQueues(map[key := queue])
    ensures Decide(map[key := queue], key, limit, now).0 == map[key := queue + [now]]
  {
    assert map[key := queue][key := queue + [now]] == map[key := queue + [now]];
  }

  lemma {:induction false} FillingTheQueue(limits: string -> Limit, expiration: int, key: string, n: nat)
    requires 0 < n <= Capacity(limits(key))
    ensures Exec(limits, expiration, Asks(key, n)).0 == map[key := Zeros(n)]
  {
    assert Asks(key, n) == Asks(key, n - 1) + [Ask(key, 0)];
    OneMore(limits, expiration, Asks(key, n - 1), Ask(key, 0));
    if n == 1 {
      assert Asks(key, 0) == [] && Zeros(1) == [0];
    } else {
      FillingTheQueue(limits, expiration, key, n - 1);
      DecideWithRoom(key, limits(key), Zeros(n - 1), 0);
      assert Zeros(n) == Zeros(n - 1) + [0];
    }
  }

  lemma {:induction false} FillingTheReference(limits: string -> Limit, key: string, n: nat)
    requires n <= Capacity(limits(key)) && limits(key).duration > 0
    ensures TimesOf(Reference(limits, Asks(key, n)).0, key) == Zeros(n)
  {
    if n > 0 {
      FillingTheReference(limits, key, n - 1);
      assert Asks(key, n) == Asks(key, n - 1) + [Ask(key, 0)];
      OneMore(limits, 0, Asks(key, n - 1), Ask(key, 0));
      ZerosInWindow(n - 1, 0, limits(key).duration);
      assert Zeros(n) == Zeros(n - 1) + [0];
    }
  }

  lemma SweepEmpties(key: string, n: nat, expiration: int)
    requires n > 0
    ensures NonEmptyQueues(map[key := Zeros(n)]) && Swept(map[key := Zeros(n)], expiration, expiration + 1) == map[]
  {
  }

  lemma FullThenSwept(limits: string -> Limit, expiration: int, key: string, n: nat)
    requires 0 < n <= Capacity(limits(key)) && limits(key).duration > 0
    ensures Exec(limits, expiration, Asks(key, n) + [Tick(expiration + 1)]).0 == map[]
    ensures TimesOf(Reference(limits, Asks(key, n) + [Tick(expiration + 1)]).0, key) == Zeros(n)
  {
    FillingTheQueue(limits, expiration, key, n);
    FillingTheReference(limits, key, n);
    SweepEmpties(key, n, expiration);
    OneMore(limits, expiration, Asks(key, n), Tick(expiration + 1));
  }

  lemma AnswersDiffer(limits: string -> Limit, expiration: int, es: seq<Event>, key: string, now: int)
    requires Exec(limits, expiration, es).0 == map[]
    requires InWindow(TimesOf(Reference(limits, es).0, key), now, limits(key).duration) >= Capacity(limits(key))
    ensures Exec(limits, expiration, es + [Ask(key, now)]).1 != Reference(limits, es + [Ask(key, now)]).1
  {
    OneMore(limits, expiration, es, Ask(key, now));
    var got, want := Exec(limits, expiration, es).1, Reference(limits, es).1;
    assert (got + [true])[|got|] && !(want + [false])[|want|];
  }

  /** With a window longer than that, filling the window, sweeping once and asking again is wrongly accepted. */
  lemma LongWindowRun(limits: string -> Limit, expiration: int, key: string) returns (es: seq<Event>)
    requires expiration >= 0 && limits(key).duration > expiration + 1
    ensures Monotone(es) && Exec(limits, expiration, es).1 != Reference(limits, es).1
  {
    var n, later := Capacity(limits(key)), expiration + 1;
    var swept := Asks(key, n) + [Tick(later)];
    es := swept + [Ask(key, later)];
    FullThenSwept(limits, expiration, key, n);
    ZerosInWindow(n, later, limits(key).duration);
    AnswersDiffer(limits, expiration, swept, key, later);
  }

  /** The sweep is harmless in every run exactly when every window fits. */
  lemma ExactIffWindowsFit(limits: string -> Limit, expiration: int)
    requires expiration >= 0
    ensures (forall es :: Monotone(es) ==> Exec(limits, expiration, es).1 == Reference(limits, es).1)
            <==> WindowsFit(limits, expiration)
  {
    if WindowsFit(limits, expiration) {
      forall es | Monotone(es) ensures Exec(limits, expiration, es).1 == Reference(limits, es).1 {
        LimiterIsExact(limits, expiration, es);
      }
    } else {
      var key :| limits(key).duration > expiration + 1;
      var es := LongWindowRun(limits, expiration, key);
    }
  }
}
