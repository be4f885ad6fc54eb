/**
  The per-user token buckets and the janitor that evicts idle ones (internal/api/ratelimit.go).
  Time is in nanoseconds; one token is 50,000,000 units and a bucket gains one unit a nanosecond,
  which is exactly 20 tokens a second. rate.Limiter is taken by its documented contract.
 */
module RateLimit {

  const TOKEN_UNITS := 50_000_000
  const BURST := 30
  const REFILL_PER_SECOND := 20
  const SECOND := 1_000_000_000
  const CAPACITY := BURST * TOKEN_UNITS
  const IDLE_TIMEOUT := 15 * 60 * SECOND

  /** units tokens were left at time last; last moves only when a call is admitted. */
  datatype Limiter = Limiter(units: nat, last: nat)

  const FRESH_LIMITER := Limiter(CAPACITY, 0)

  function Level(l: Limiter, now: nat): nat {
    var elapsed := if now < l.last then 0 else now - l.last;
    if l.units + elapsed > CAPACITY then CAPACITY else l.units + elapsed
  }

  predicate Admits(l: Limiter, now: nat) { Level(l, now) >= TOKEN_UNITS }

  function Take(l: Limiter, now: nat): Limiter {
    if Admits(l, now) then Limiter(Level(l, now) - TOKEN_UNITS, now) else l
  }

  // ---- the store -------------------------------------------------------------------

  datatype PerUser = PerUser(limiter: Limiter, lastSeen: nat)

  type Buckets = map<string, PerUser>

  function LimiterOf(buckets: Buckets, key: string): Limiter {
    if key in buckets then buckets[key].limiter else FRESH_LIMITER
  }

  function AfterAllow(buckets: Buckets, key: string, now: nat): Buckets {
    buckets[key := PerUser(Take(LimiterOf(buckets, key), now), now)]
  }

  predicate Idle(entry: PerUser, now: nat) { entry.lastSeen < now - IDLE_TIMEOUT }

  function AfterSweep(buckets: Buckets, now: nat): Buckets {
    map k | k in buckets && !Idle(buckets[k], now) :: buckets[k]
  }

  class RateLimitStore {
    var buckets: Buckets

    constructor ()
      ensures buckets == map[]
    {
      buckets := map[];
    }

    method Allow(key: string, now: nat) returns (ok: bool)
      modifies this
      ensures ok == Admits(LimiterOf(old(buckets), key), now)
      ensures buckets == AfterAllow(old(buckets), key, now)
    {
      if key !in buckets {
        buckets := buckets[key := PerUser(FRESH_LIMITER, now)];
      }
      buckets := buckets[key := buckets[key].(lastSeen := now)];
      var limiter := buckets[key].limiter;
      ok := Admits(limiter, now);
      buckets := buckets[key := buckets[key].(limiter := Take(limiter, now))];
    }

    /** One tick of gcLoop. */
    method Sweep(now: nat)
      modifies this
      ensures buckets == AfterSweep(old(buckets), now)
      ensures forall k :: k in buckets <==>
                k in old(buckets) && now - old(buckets)[k].lastSeen <= 15 * 60 * 1_000_000_000
      ensures forall k | k in buckets :: buckets[k] == old(buckets)[k]
    {
      var cutoff := now - IDLE_TIMEOUT;
      var todo := buckets.Keys;
      while todo != {}
        invariant todo <= buckets.Keys
        invariant forall k | k in buckets :: k in old(buckets) && buckets[k] == old(buckets)[k]
        invariant forall k | k in buckets && k !in todo :: !Idle(buckets[k], now)
        invariant forall k | k in old(buckets) && !Idle(old(buckets)[k], now) :: k in buckets
        decreases todo
      {
        var key :| key in todo;
        todo := todo - {key};
        if buckets[key].lastSeen < cutoff {
          buckets := map k | k in buckets && k != key :: buckets[k];
        }
      }
    }
  }

  // ---- one undisturbed bucket ----------------------------------------------------------

  ghost predicate Sorted(times: seq<nat>) {
    forall i, j | 0 <= i < j < |times| :: times[i] <= times[j]
  }

  ghost predicate Until(times: seq<nat>, end: nat) {
    forall i | 0 <= i < |times| :: times[i] <= end
  }

  /** The bucket after calls at these times. */
  function LimiterAfter(times: seq<nat>): Limiter {
    if times == [] then FRESH_LIMITER
    else Take(LimiterAfter(times[..|times| - 1]), times[|times| - 1])
  }

  /** How many of these calls were admitted at or after the instant from. */
  function Admitted(times: seq<nat>, from: nat): nat {
    if times == [] then 0
    else
      var init, t := times[..|times| - 1], times[|times| - 1];
      Admitted(init, from) + if t >= from && Admits(LimiterAfter(init), t) then 1 else 0
  }

  lemma SortedInit(times: seq<nat>)
    requires Sorted(times) && times != []
    ensures Sorted(times[..|times| - 1]) && Until(times[..|times| - 1], times[|times| - 1])
  {
  }

  lemma {:induction false} LimiterBounds(times: seq<nat>)
    ensures LimiterAfter(times).units <= CAPACITY
    ensures LimiterAfter(times).last == 0 || LimiterAfter(times).last in times
  {
    if times != [] { LimiterBounds(times[..|times| - 1]); }
  }

  lemma {:induction false} NoneAdmittedYet(times: seq<nat>, from: nat)
    requires forall i | 0 <= i < |times| :: times[i] < from
    ensures Admitted(times, from) == 0
  {
    if times != [] {
      NoneAdmittedYet(times[..|times| - 1], from);
    }
  }

  /** Tokens handed out since any instant, plus those left, never exceed the burst plus the refill. */
  lemma {:induction false} Budget(times: seq<nat>, from: nat, now: nat)
    requires Sorted(times) && Until(times, now) && from <= now
    ensures TOKEN_UNITS * Admitted(times, from) + Level(LimiterAfter(times), now) <= CAPACITY + (now - from)
  {
    LimiterBounds(times);
    if times != [] {
      var init, t := times[..|times| - 1], times[|times| - 1];
      SortedInit(times);
      if t < from {
        NoneAdmittedYet(times, from);
      } else {
        Budget(init, from, t);
        LimiterBounds(init);
        LevelGrows(LimiterAfter(times), t, now);
      }
    }
  }

  lemma LevelGrows(l: Limiter, t: nat, now: nat)
    requires l.last <= t <= now
    ensures Level(l, now) == if Level(l, t) + (now - t) > CAPACITY then CAPACITY else Level(l, t) + (now - t)
  {
  }

  /** Some instant since ends a full bucket: from there on the budget is used up exactly. */
  lemma {:induction false} Tight(times: seq<nat>, now: nat) returns (since: nat)
    requires Sorted(times) && Until(times, now)
    ensures since <= now
    ensures TOKEN_UNITS * Admitted(times, since) + Level(LimiterAfter(times), now) == CAPACITY + (now - since)
  {
    LimiterBounds(times);
    if times == [] {
      since := now;
    } else {
      var init, t := times[..|times| - 1], times[|times| - 1];
      SortedInit(times);
      since := Tight(init, t);
      LimiterBounds(init);
      LevelGrows(LimiterAfter(times), t, now);
      if Level(LimiterAfter(times), t) + (now - t) > CAPACITY {
        since := now;
        NoneAdmittedYet(times, now);
      }
    }
  }

  /** Admitting a call now keeps every window ending now within 30 calls and 20 a second, in nanoseconds. */
  ghost predicate WithinBudget(times: seq<nat>, now: nat) {
    forall from: nat | from <= now ::
      1_000_000_000 * (Admitted(times, from) + 1) <= 30 * 1_000_000_000 + 20 * (now - from)
  }

  lemma AdmitsIffWithinBudget(times: seq<nat>, now: nat)
    requires Sorted(times) && Until(times, now)
    ensures Admits(LimiterAfter(times), now) <==> WithinBudget(times, now)
  {
    if Admits(LimiterAfter(times), now) {
      forall from: nat | from <= now
        ensures 1_000_000_000 * (Admitted(times, from) + 1) <= 30 * 1_000_000_000 + 20 * (now - from)
      {
        Budget(times, from, now);
      }
    } else {
      var since := Tight(times, now);
      assert 1_000_000_000 * (Admitted(times, since) + 1) > 30 * 1_000_000_000 + 20 * (now - since);
    }
  }

  // ---- runs of the store ------------------------------------------------------------------

  datatype Op = Call(key: string, at: nat) | Tick(at: nat)

  ghost predicate Timed(ops: seq<Op>, end: nat) {
    && (forall i, j | 0 <= i < j < |ops| :: ops[i].at <= ops[j].at)
    && (forall i | 0 <= i < |ops| :: ops[i].at <= end)
  }

  function StoreAfter(ops: seq<Op>): Buckets {
    if ops == [] then map[]
    else
      var before := StoreAfter(ops[..|ops| - 1]);
      match ops[|ops| - 1]
      case Call(key, at) => AfterAllow(before, key, at)
      case Tick(at) => AfterSweep(before, at)
  }

  /** When key was called. */
  function CallTimes(ops: seq<Op>, key: string): seq<nat> {
    if ops == [] then []
    else
      var last := ops[|ops| - 1];
      CallTimes(ops[..|ops| - 1], key) + if last.Call? && last.key == key then [last.at] else []
  }

  lemma {:induction false} CallTimesSorted(ops: seq<Op>, key: string, end: nat)
    requires Timed(ops, end)
    ensures Sorted(CallTimes(ops, key)) && Until(CallTimes(ops, key), end)
  {
    if ops != [] {
      var init, last := ops[..|ops| - 1], ops[|ops| - 1];
      CallTimesSorted(init, key, last.at);
    }
  }

  /** The stored bucket is the undisturbed one, or it is absent and the undisturbed one is full. */
  ghost predicate Mirrors(buckets: Buckets, key: string, l: Limiter, now: nat) {
    if key in buckets then buckets[key].limiter == l && l.last <= buckets[key].lastSeen <= now
    else Level(l, now) == CAPACITY && l.last <= now
  }

  /** Evicting a bucket is never observable: it mirrors a bucket that nobody ever evicts. */
  lemma {:induction false} StoreMirrorsLimiter(ops: seq<Op>, key: string, end: nat)
    requires Timed(ops, end)
    ensures Mirrors(StoreAfter(ops), key, LimiterAfter(CallTimes(ops, key)), end)
  {
    if ops != [] {
      var init, last := ops[..|ops| - 1], ops[|ops| - 1];
      StoreMirrorsLimiter(init, key, last.at);
      var times := CallTimes(ops, key);
      if last.Call? && last.key == key {
        assert times[..|times| - 1] == CallTimes(init, key);
      } else {
        assert times == CallTimes(init, key);
      }
    }
  }

  /**
    Each decision of the real store, whatever else it was asked and whenever the janitor ran: a call
    is admitted exactly when no window ending now would exceed 30 calls plus 20 a second for its key.
   */
  lemma AllowIsExact(ops: seq<Op>, key: string, now: nat)
    requires Timed(ops, now)
    ensures Admits(LimiterOf(StoreAfter(ops), key), now) <==> WithinBudget(CallTimes(ops, key), now)
    ensures Admits(LimiterOf(StoreAfter(ops), key), now) <==> Admits(LimiterAfter(CallTimes(ops, key)), now)
  {
    StoreMirrorsLimiter(ops, key, now);
    CallTimesSorted(ops, key, now);
    AdmitsIffWithinBudget(CallTimes(ops, key), now);
  }

  /** Calls on key the store itself admitted between two instants. */
  function StoreAdmitted(ops: seq<Op>, key: string, from: nat, to: nat): nat {
    if ops == [] then 0
    else
      var init, last := ops[..|ops| - 1], ops[|ops| - 1];
      StoreAdmitted(init, key, from, to) +
      if last.Call? && last.key == key && from <= last.at <= to && Admits(LimiterOf(StoreAfter(init), key), last.at)
      then 1 else 0
  }

  lemma {:induction false} StoreAdmittedIs(ops: seq<Op>, key: string, from: nat, to: nat)
    requires Timed(ops, to)
    ensures StoreAdmitted(ops, key, from, to) == Admitted(CallTimes(ops, key), from)
  {
    if ops != [] {
      var init, last := ops[..|ops| - 1], ops[|ops| - 1];
      StoreAdmittedIs(init, key, from, to);
      AllowIsExact(init, key, last.at);
      var times := CallTimes(ops, key);
      if last.Call? && last.key == key {
        assert times[..|times| - 1] == CallTimes(init, key);
      } else {
        assert times == CallTimes(init, key);
      }
    }
  }

  /** In every run, no key gets more than 30 + 20 d calls through in any d seconds. */
  lemma {:induction false} WindowBound(ops: seq<Op>, key: string, from: nat, to: nat, end: nat, seconds: nat)
    requires Timed(ops, end) && from <= to <= from + seconds * 1_000_000_000
    ensures StoreAdmitted(ops, key, from, to) <= 30 + 20 * seconds
  {
    if ops != [] && ops[|ops| - 1].at > to {
      WindowBound(ops[..|ops| - 1], key, from, to, end, seconds);
    } else {
      assert Timed(ops, to);
      StoreAdmittedIs(ops, key, from, to);
      CallTimesSorted(ops, key, to);
      Budget(CallTimes(ops, key), from, to);
    }
  }
}
