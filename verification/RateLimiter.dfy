/** The in-memory rate limiter: a queue per key that is cut to the limit, and keys that a
    sweeper deletes at any time. It is compared with the full history of admissions. */
module RateLimiter {

  type Key = string
  type Store = map<Key, seq<int>>

  // ----- one call, on values

  function Queue(store: Store, key: Key): seq<int> { if key in store then store[key] else [] }

  predicate Admits(queue: seq<int>, known: bool, maxRequestNum: int, duration: int, now: int) {
    !known || |queue| < maxRequestNum || (queue != [] && now - queue[0] >= duration)
  }

  function Appended(queue: seq<int>, known: bool, maxRequestNum: int, now: int): seq<int> {
    if known && |queue| >= maxRequestNum && queue != [] then queue[1..] + [now] else queue + [now]
  }

  function AfterRequest(store: Store, key: Key, maxRequestNum: int, duration: int, now: int): Store {
    if Admits(Queue(store, key), key in store, maxRequestNum, duration, now)
    then store[key := Appended(Queue(store, key), key in store, maxRequestNum, now)]
    else store
  }

  predicate Expired(queue: seq<int>, expiration: int, now: int) {
    |queue| == 0 || now - queue[|queue| - 1] > expiration
  }

  function AfterSweep(store: Store, expiration: int, now: int): Store {
    map key | key in store && !Expired(store[key], expiration, now) :: store[key]
  }

  // ----- the limiter

  class InMemoryRateLimiter {
    var store: Store
    var started: bool   // the store has been made
    var expiration: int

    constructor ()
      ensures !started && store == map[]
    {
      store, started, expiration := map[], false, 0;
    }

    /** Takes effect the first time only: later expirations are ignored. */
    method Init(expiration: int)
      modifies this
      ensures started && store == old(store)
      ensures this.expiration == if old(started) then old(this.expiration) else expiration
    {
      if !started {
        started := true;
        this.expiration := expiration;
      }
    }

    /** One request. A known key with an empty queue and no room is a caller error (index out
        of range); it cannot arise with a limit of at least one. */
    method Request(key: Key, maxRequestNum: int, duration: int, now: int) returns (ok: bool)
      requires started && (key in store && store[key] == [] ==> maxRequestNum > 0)
      modifies this`store
      ensures ok == Admits(Queue(old(store), key), key in old(store), maxRequestNum, duration, now)
      ensures store == AfterRequest(old(store), key, maxRequestNum, duration, now)
    {
      if key in store {
        var queue := store[key];
        if |queue| < maxRequestNum {
          store := store[key := queue + [now]];
          return true;
        } else if now - queue[0] >= duration {
          queue := queue[1..];
          store := store[key := queue + [now]];
          return true;
        } else {
          return false;
        }
      } else {
        store := store[key := []];
        store := store[key := store[key] + [now]];
      }
      return true;
    }

    /** One round of the sweeper: deletes the expired keys one by one. */
    method ClearExpiredItems(now: int)
      modifies this`store
      ensures store == AfterSweep(old(store), expiration, now)
    {
      var left := store.Keys;
      while left != {}
        invariant left <= old(store).Keys && store.Keys <= old(store).Keys && left <= store.Keys
        invariant forall k | k in store :: store[k] == old(store)[k]
        invariant forall k | k in old(store) && k !in left :: k in store <==> !Expired(old(store)[k], expiration, now)
        decreases left
      {
        var key :| key in left;
        left := left - {key};
        var queue := store[key];
        var size := |queue|;
        if size == 0 || now - queue[size - 1] > expiration {
          store := store - {key};
        }
      }
    }
  }

  // ----- the full history

  /** How many of these were in the last `duration` seconds. */
  function Recent(log: seq<int>, duration: int, now: int): nat {
    if log == [] then 0
    else Recent(log[..|log| - 1], duration, now) + if now - log[|log| - 1] < duration then 1 else 0
  }

  ghost predicate Sorted(log: seq<int>) { forall i, j | 0 <= i <= j < |log| :: log[i] <= log[j] }

  /** None of these counts any more. */
  ghost predicate Past(log: seq<int>, duration: int, now: int) {
    forall i | 0 <= i < |log| :: now - log[i] >= duration
  }

  /** What a queue remembers of the history it came from. */
  ghost predicate Remembers(queue: seq<int>, log: seq<int>, limit: int, duration: int, now: int) {
    && Sorted(log) && (forall i | 0 <= i < |log| :: log[i] <= now)
    && |queue| <= limit && |queue| <= |log| && queue == log[|log| - |queue|..]
    && (|queue| < limit ==> Past(log[..|log| - |queue|], duration, now))
  }

  lemma {:induction false} RecentAppend(a: seq<int>, b: seq<int>, duration: int, now: int)
    ensures Recent(a + b, duration, now) == Recent(a, duration, now) + Recent(b, duration, now)
    decreases |b|
  {
    if b == [] {
      assert a + b == a;
    } else {
      var n := |b| - 1;
      assert (a + b)[..|a| + n] == a + b[..n];
      RecentAppend(a, b[..n], duration, now);
    }
  }

  lemma {:induction false} RecentBounds(log: seq<int>, duration: int, now: int)
    ensures Recent(log, duration, now) <= |log|
    ensures Past(log, duration, now) ==> Recent(log, duration, now) == 0
    ensures (forall i | 0 <= i < |log| :: now - log[i] < duration) ==> Recent(log, duration, now) == |log|
    decreases |log|
  {
    if log != [] { RecentBounds(log[..|log| - 1], duration, now); }
  }

  /** A full queue whose oldest entry is out of the window: at most limit - 1 are in it. */
  lemma OldestOut(queue: seq<int>, duration: int, now: int)
    requires queue != [] && now - queue[0] >= duration
    ensures Recent(queue, duration, now) < |queue|
  {
    assert queue == [queue[0]] + queue[1..];
    RecentAppend([queue[0]], queue[1..], duration, now);
    RecentBounds([queue[0]], duration, now);
    RecentBounds(queue[1..], duration, now);
  }

  /** With a full queue, the oldest entry decides. */
  lemma FullDecision(dropped: seq<int>, queue: seq<int>, duration: int, now: int)
    requires Sorted(dropped + queue) && queue != []
    ensures now - queue[0] >= duration <==> Recent(dropped + queue, duration, now) < |queue|
  {
    var log := dropped + queue;
    var k := |dropped|;
    forall i | 0 <= i < |queue| ensures queue[0] <= queue[i] { assert log[k] <= log[k + i]; }
    forall i | 0 <= i < k ensures dropped[i] <= queue[0] { assert log[i] <= log[k]; }
    hide Sorted;
    RecentAppend(dropped, queue, duration, now);
    RecentBounds(dropped, duration, now);
    RecentBounds(queue, duration, now);
    if now - queue[0] >= duration { OldestOut(queue, duration, now); }
  }

  /** The decision on the queue is the decision on the whole history. */
  lemma DecisionExact(queue: seq<int>, known: bool, log: seq<int>, limit: int, duration: int, now: int)
    requires limit >= 1 && Remembers(queue, log, limit, duration, now) && (!known ==> queue == [])
    ensures Admits(queue, known, limit, duration, now) <==> Recent(log, duration, now) < limit
  {
    hide Sorted, Recent, Past;
    var dropped := log[..|log| - |queue|];
    assert log == dropped + queue;
    if |queue| == limit {
      FullDecision(dropped, queue, duration, now);
    } else {
      RecentAppend(dropped, queue, duration, now);
      RecentBounds(dropped, duration, now);
      RecentBounds(queue, duration, now);
    }
  }

  /** Time passing forgets nothing that still counts. */
  lemma LaterRemembers(queue: seq<int>, log: seq<int>, limit: int, duration: int, now: int, later: int)
    requires Remembers(queue, log, limit, duration, now) && now <= later
    ensures Remembers(queue, log, limit, duration, later)
  {
  }

  lemma AdmitRemembers(queue: seq<int>, known: bool, log: seq<int>, limit: int, duration: int, now: int)
    requires limit >= 1 && Remembers(queue, log, limit, duration, now) && (!known ==> queue == [])
    requires Admits(queue, known, limit, duration, now)
    ensures Remembers(Appended(queue, known, limit, now), log + [now], limit, duration, now)
  {
    var q := Appended(queue, known, limit, now);
    var l := log + [now];
    if |queue| < limit {
      assert l[..|l| - |q|] == log[..|log| - |queue|];
    }
  }

  lemma SweepRemembers(queue: seq<int>, log: seq<int>, limit: int, duration: int, now: int, expiration: int)
    requires limit >= 1 && Remembers(queue, log, limit, duration, now) && duration <= expiration + 1 && Expired(queue, expiration, now)
    ensures Remembers([], log, limit, duration, now)
  {
    if queue != [] {
      var last := |log| - 1;
      assert queue[|queue| - 1] == log[last];
      assert forall i | 0 <= i < |log| :: log[i] <= log[last];
    } else {
      assert log[..|log|] == log;
    }
  }

  // ----- runs

  datatype Event = Asked(key: Key, at: int) | Swept(at: int)

  /** Each key has a limit and a duration of its own; they share the limiter and its expiration. */
  datatype Rules = Rules(limit: Key -> int, duration: Key -> int, expiration: int)

  /** The limiter's state together with the complete log of admissions per key. */
  datatype World = World(store: Store, log: map<Key, seq<int>>)

  function LogOf(w: World, key: Key): seq<int> { if key in w.log then w.log[key] else [] }

  function Admitted(w: World, key: Key, rules: Rules, now: int): bool {
    Admits(Queue(w.store, key), key in w.store, rules.limit(key), rules.duration(key), now)
  }

  function Happens(w: World, e: Event, rules: Rules): World {
    match e
    case Swept(now) => w.(store := AfterSweep(w.store, rules.expiration, now))
    case Asked(key, now) =>
      World(AfterRequest(w.store, key, rules.limit(key), rules.duration(key), now),
            if Admitted(w, key, rules, now) then w.log[key := LogOf(w, key) + [now]] else w.log)
  }

  function After(events: seq<Event>, rules: Rules): World {
    if events == [] then World(map[], map[])
    else Happens(After(events[..|events| - 1], rules), events[|events| - 1], rules)
  }

  /** The clock does not go back, up to now. */
  ghost predicate Timely(events: seq<Event>, now: int) {
    && (forall i, j | 0 <= i <= j < |events| :: events[i].at <= events[j].at)
    && (forall i | 0 <= i < |events| :: events[i].at <= now)
  }

  ghost predicate Remembered(w: World, key: Key, rules: Rules, now: int) {
    Remembers(Queue(w.store, key), LogOf(w, key), rules.limit(key), rules.duration(key), now)
  }

  lemma HappensRemembers(w: World, e: Event, key: Key, rules: Rules)
    requires rules.limit(key) >= 1 && rules.duration(key) <= rules.expiration + 1 && Remembered(w, key, rules, e.at)
    ensures Remembered(Happens(w, e, rules), key, rules, e.at)
  {
    hide Remembers, Admits, Appended, Expired;
    match e
    case Asked(k, now) =>
      if k == key && Admitted(w, k, rules, now) {
        AdmitRemembers(Queue(w.store, key), key in w.store, LogOf(w, key), rules.limit(key), rules.duration(key), now);
      }
    case Swept(now) =>
      if key in w.store && Expired(w.store[key], rules.expiration, now) {
        SweepRemembers(w.store[key], LogOf(w, key), rules.limit(key), rules.duration(key), now, rules.expiration);
      }
  }

  /** Whatever else the limiter serves, and whenever it sweeps, a key's queue remembers all
      of the key's log that can still count. */
  lemma {:induction false} RunRemembers(events: seq<Event>, key: Key, rules: Rules, now: int)
    requires rules.limit(key) >= 1 && rules.duration(key) <= rules.expiration + 1 && Timely(events, now)
    ensures Remembered(After(events, rules), key, rules, now)
    decreases |events|
  {
    hide Remembers, Happens;
    if events == [] {
      NothingToRemember(rules.limit(key), rules.duration(key), now);
    } else {
      var n := |events| - 1;
      var e := events[n];
      RunRemembers(events[..n], key, rules, e.at);
      HappensRemembers(After(events[..n], rules), e, key, rules);
      var w := After(events, rules);
      LaterRemembers(Queue(w.store, key), LogOf(w, key), rules.limit(key), rules.duration(key), e.at, now);
    }
  }

  lemma NothingToRemember(limit: int, duration: int, now: int)
    requires limit >= 1
    ensures Remembers([], [], limit, duration, now)
  {
  }

  /** After these events a request is admitted exactly when fewer than the limit were
      admitted in the last `duration` seconds of the full log. */
  ghost predicate Exact(events: seq<Event>, key: Key, rules: Rules, now: int) {
    var w := After(events, rules);
    Admitted(w, key, rules, now) <==> Recent(LogOf(w, key), rules.duration(key), now) < rules.limit(key)
  }

  lemma WindowExact(events: seq<Event>, key: Key, rules: Rules, now: int)
    requires rules.limit(key) >= 1 && rules.duration(key) <= rules.expiration + 1 && Timely(events, now)
    ensures Exact(events, key, rules, now)
  {
    hide Remembers, Admits;
    RunRemembers(events, key, rules, now);
    var w := After(events, rules);
    DecisionExact(Queue(w.store, key), key in w.store, LogOf(w, key), rules.limit(key), rules.duration(key), now);
  }

  // ----- durations beyond the expiration

  function Burst(key: Key, n: nat): seq<Event> { seq(n, _ => Asked(key, 0)) }

  function Zeros(n: nat): seq<int> { seq(n, _ => 0) }

  /** Up to the limit, requests at one moment are all admitted. */
  lemma {:induction false} BurstAdmitted(key: Key, rules: Rules, n: nat)
    requires n <= rules.limit(key)
    ensures var w := After(Burst(key, n), rules);
            Queue(w.store, key) == LogOf(w, key) == Zeros(n) && (n > 0 ==> key in w.store)
  {
    if n > 0 {
      BurstAdmitted(key, rules, n - 1);
      assert Burst(key, n)[..n - 1] == Burst(key, n - 1) && Burst(key, n)[n - 1] == Asked(key, 0);
      assert Zeros(n) == Zeros(n - 1) + [0];
      var w := After(Burst(key, n - 1), rules);
      assert Admitted(w, key, rules, 0);
      assert After(Burst(key, n), rules) == Happens(w, Asked(key, 0), rules);
    }
  }

  lemma {:induction false} ZerosCount(n: nat, duration: int, now: int)
    requires now < duration
    ensures Recent(Zeros(n), duration, now) == n
  {
    if n > 0 {
      assert Zeros(n)[..n - 1] == Zeros(n - 1) && Zeros(n)[n - 1] == 0;
      ZerosCount(n - 1, duration, now);
    }
  }

  lemma ZerosExpire(n: nat, expiration: int)
    ensures Expired(Zeros(n), expiration, expiration + 1)
  {
  }

  /** A key used up to its limit, swept when its expiration has passed, and asked for again
      at once: admitted, though the limit is used up for a second more at least. */
  lemma ForgottenTooSoon(key: Key, rules: Rules)
    requires rules.limit(key) >= 1 && rules.expiration >= 0 && rules.duration(key) > rules.expiration + 1
    ensures var now := rules.expiration + 1; var events := Burst(key, rules.limit(key)) + [Swept(now)];
            Timely(events, now) && !Exact(events, key, rules, now)
  {
    var n := rules.limit(key);
    var now := rules.expiration + 1;
    BurstAdmitted(key, rules, n);
    SweptNext(Burst(key, n), now, rules);
    BurstTimely(key, n, now);
    hide Recent, After, Burst, Expired, Zeros, Timely;
    ZerosExpire(n, rules.expiration);
    ZerosCount(n, rules.duration(key), now);
  }

  lemma SweptNext(events: seq<Event>, now: int, rules: Rules)
    ensures After(events + [Swept(now)], rules) == After(events, rules).(store := AfterSweep(After(events, rules).store, rules.expiration, now))
  {
    hide AfterSweep;
    assert (events + [Swept(now)])[..|events|] == events;
  }

  lemma BurstTimely(key: Key, n: nat, now: int)
    requires now >= 0
    ensures Timely(Burst(key, n) + [Swept(now)], now)
  {
    var events := Burst(key, n) + [Swept(now)];
    assert forall i | 0 <= i < |events| :: events[i].at == if i < n then 0 else now;
  }

  /** So the window is exact in every run exactly when the duration is at most one second
      above the expiration. */
  lemma ExactIff(key: Key, rules: Rules)
    requires rules.limit(key) >= 1 && rules.expiration >= 0
    ensures (forall events, now | Timely(events, now) :: Exact(events, key, rules, now)) <==> rules.duration(key) <= rules.expiration + 1
  {
    hide Timely, Exact;
    if rules.duration(key) <= rules.expiration + 1 {
      forall events, now | Timely(events, now) ensures Exact(events, key, rules, now) { WindowExact(events, key, rules, now); }
    } else {
      ForgottenTooSoon(key, rules);
    }
  }

  // ----- whatever the duration

  /** A queue is always the end of its log, and the log goes up to now. */
  ghost predicate EndOf(queue: seq<int>, log: seq<int>, now: int) {
    && Sorted(log) && (forall i | 0 <= i < |log| :: log[i] <= now)
    && |queue| <= |log| && queue == log[|log| - |queue|..]
  }

  lemma AppendedEnds(queue: seq<int>, known: bool, log: seq<int>, limit: int, now: int)
    requires EndOf(queue, log, now)
    ensures EndOf(Appended(queue, known, limit, now), log + [now], now)
  {
    var q, l := Appended(queue, known, limit, now), log + [now];
    var k := |l| - |q|;
    assert l[k..] == log[k..] + [now];
  }

  lemma NothingEnds(log: seq<int>, now: int)
    requires Sorted(log) && forall i | 0 <= i < |log| :: log[i] <= now
    ensures EndOf([], log, now)
  {
  }

  lemma HappensEnds(w: World, e: Event, key: Key, rules: Rules)
    requires EndOf(Queue(w.store, key), LogOf(w, key), e.at)
    ensures EndOf(Queue(Happens(w, e, rules).store, key), LogOf(Happens(w, e, rules), key), e.at)
  {
    NothingEnds(LogOf(w, key), e.at);
    hide Admits, Expired, EndOf, Appended;
    AppendedEnds(Queue(w.store, key), key in w.store, LogOf(w, key), rules.limit(key), e.at);
  }

  lemma {:induction false} RunEnds(events: seq<Event>, key: Key, rules: Rules, now: int)
    requires Timely(events, now)
    ensures EndOf(Queue(After(events, rules).store, key), LogOf(After(events, rules), key), now)
    decreases |events|
  {
    if events == [] {
      NothingEnds([], now);
    } else {
      hide Happens, EndOf;
      var n := |events| - 1;
      RunEnds(events[..n], key, rules, events[n].at);
      HappensEnds(After(events[..n], rules), events[n], key, rules);
      var w := After(events, rules);
      LaterEnds(Queue(w.store, key), LogOf(w, key), events[n].at, now);
    }
  }

  lemma LaterEnds(queue: seq<int>, log: seq<int>, now: int, later: int)
    requires EndOf(queue, log, now) && now <= later
    ensures EndOf(queue, log, later)
  {
  }

  /** Whatever is forgotten, no request is turned away that the full log would admit. */
  lemma NeverTooStrict(events: seq<Event>, key: Key, rules: Rules, now: int)
    requires rules.limit(key) >= 1 && Timely(events, now)
    ensures var w := After(events, rules);
            !Admitted(w, key, rules, now) ==> Recent(LogOf(w, key), rules.duration(key), now) >= rules.limit(key)
  {
    hide After, Recent, Sorted, Timely;
    RunEnds(events, key, rules, now);
    var w := After(events, rules);
    var queue, log := Queue(w.store, key), LogOf(w, key);
    if !Admitted(w, key, rules, now) {
      assert log == log[..|log| - |queue|] + queue;
      FullDecision(log[..|log| - |queue|], queue, rules.duration(key), now);
    }
  }

  /** A key never asked for is admitted, whatever its limit. */
  lemma {:induction false} FirstAdmitted(events: seq<Event>, key: Key, rules: Rules, now: int)
    requires forall i | 0 <= i < |events| :: events[i].Asked? ==> events[i].key != key
    ensures key !in After(events, rules).store && Admitted(After(events, rules), key, rules, now)
    decreases |events|
  {
    if events != [] { FirstAdmitted(events[..|events| - 1], key, rules, now); }
  }
}
