/**
  The two guards in front of the OCR service: a token bucket and a circuit breaker.

  Each guard is a class, and a value with the functions that say what its methods do; the
  theorems are about runs of these functions over any calls at any times. Clock readings
  are inputs that never decrease, and numbers are reals.
 */
module Protection {
  import opened Prelude

  // ---------- the token bucket ----------

  datatype Bucket = Bucket(capacity: nat, rate: real, tokens: real, lastRefill: real) {
    predicate Valid() {
      capacity > 0 && rate > 0.0 && 0.0 <= tokens <= capacity as real
    }
  }

  function MinReal(a: real, b: real): real {
    if a < b then a else b
  }

  // What flows into a bucket between two times.
  function Inflow(rate: real, from: real, to: real): real {
    (to - from) * rate
  }

  function Refilled(b: Bucket, now: real): Bucket {
    b.(tokens := MinReal(b.capacity as real, b.tokens + Inflow(b.rate, b.lastRefill, now)), lastRefill := now)
  }

  // The bucket after a call, and whether the call got a token.
  function Acquired(b: Bucket, now: real): (Bucket, bool) {
    var r := Refilled(b, now);
    if r.tokens >= 1.0 then (r.(tokens := r.tokens - 1.0), true) else (r, false)
  }

  class TokenBucket {
    const capacity: nat
    const refillRate: real
    var tokens: real
    var lastRefill: real

    function State(): Bucket
      reads this
    {
      Bucket(capacity, refillRate, tokens, lastRefill)
    }

    constructor (capacity: nat, refillRate: real, now: real)
      requires capacity > 0 && refillRate > 0.0
      ensures State() == Bucket(capacity, refillRate, capacity as real, now) && State().Valid()
    {
      this.capacity, this.refillRate := capacity, refillRate;
      tokens, lastRefill := capacity as real, now;
    }

    // A bucket of no capacity or no rate is refused.
    static method Create(capacity: int, refillRate: real, now: real) returns (b: Option<TokenBucket>)
      ensures b.Some? <==> capacity > 0 && refillRate > 0.0
      ensures b.Some? ==> fresh(b.value) && b.value.State() == Bucket(capacity, refillRate, capacity as real, now)
    {
      if capacity <= 0 || refillRate <= 0.0 {
        return None;
      }
      var made := new TokenBucket(capacity, refillRate, now);
      return Some(made);
    }

    method Refill(now: real)
      modifies this
      ensures State() == Refilled(old(State()), now)
    {
      var elapsed := now - lastRefill;
      lastRefill := now;
      tokens := MinReal(capacity as real, tokens + elapsed * refillRate);
    }

    method TryAcquire(now: real) returns (granted: bool)
      requires State().Valid() && now >= lastRefill
      modifies this
      ensures State().Valid()
      ensures (State(), granted) == Acquired(old(State()), now)
    {
      AcquiredValid(State(), now);
      Refill(now);
      if tokens >= 1.0 {
        tokens := tokens - 1.0;
        return true;
      }
      return false;
    }
  }

  lemma InflowGrows(rate: real, from: real, to: real)
    requires rate > 0.0 && from <= to
    ensures Inflow(rate, from, to) >= 0.0
  {}

  lemma InflowAdds(rate: real, a: real, b: real, c: real)
    ensures Inflow(rate, a, c) == Inflow(rate, a, b) + Inflow(rate, b, c)
  {}

  /** What flows in grows with the time, by the rate in every unit of it. */
  lemma InflowIsRateTimesTime(rate: real, from: real, to: real)
    ensures Inflow(rate, from, to) == rate * (to - from)
    ensures Inflow(rate, from, from + 1.0) == rate
  {}

  lemma InflowOfNoTime(rate: real, at: real)
    ensures Inflow(rate, at, at) == 0.0
  {}

  lemma AcquiredValid(b: Bucket, now: real)
    requires b.Valid() && now >= b.lastRefill
    ensures var (a, granted) := Acquired(b, now);
            && a.Valid() && a == b.(tokens := a.tokens, lastRefill := now)
            && a.tokens + (if granted then 1.0 else 0.0) == Refilled(b, now).tokens
            && Refilled(b, now).tokens <= b.capacity as real
            && Refilled(b, now).tokens <= b.tokens + Inflow(b.rate, b.lastRefill, now)
            && (Refilled(b, now).tokens == b.capacity as real
                || Refilled(b, now).tokens == b.tokens + Inflow(b.rate, b.lastRefill, now))
  {
    InflowGrows(b.rate, b.lastRefill, now);
  }

  // The bucket after calls at the given times.
  function AfterCalls(b: Bucket, times: seq<real>): Bucket {
    if times == [] then b else Acquired(AfterCalls(b, times[..|times| - 1]), times[|times| - 1]).0
  }

  function Granted(b: Bucket, times: seq<real>, now: real): bool {
    Acquired(AfterCalls(b, times), now).1
  }

  // How many of the calls made between two times were granted.
  function Grants(b: Bucket, times: seq<real>, from: real, upTo: real): nat {
    if times == [] then 0
    else
      var earlier, now := times[..|times| - 1], times[|times| - 1];
      Grants(b, earlier, from, upTo) + if from <= now <= upTo && Granted(b, earlier, now) then 1 else 0
  }

  predicate Ordered(since: real, times: seq<real>) {
    (forall i :: 0 <= i < |times| ==> since <= times[i])
    && forall i, j :: 0 <= i < j < |times| ==> times[i] <= times[j]
  }

  lemma {:induction false} CallsKeepValid(b: Bucket, times: seq<real>)
    requires b.Valid() && Ordered(b.lastRefill, times)
    ensures var a := AfterCalls(b, times);
            && a.Valid() && a == b.(tokens := a.tokens, lastRefill := a.lastRefill)
            && a.lastRefill == if times == [] then b.lastRefill else times[|times| - 1]
  {
    if times != [] {
      CallsKeepValid(b, times[..|times| - 1]);
      AcquiredValid(AfterCalls(b, times[..|times| - 1]), times[|times| - 1]);
    }
  }

  // The tokens left are what the window has not used of its allowance.
  lemma {:induction false} GrantsAndTokens(b: Bucket, times: seq<real>, from: real, upTo: real)
    requires b.Valid() && Ordered(b.lastRefill, times)
    requires AfterCalls(b, times).lastRefill <= upTo
    ensures var a := AfterCalls(b, times);
            if a.lastRefill < from then Grants(b, times, from, upTo) == 0
            else Grants(b, times, from, upTo) as real + a.tokens
                   <= b.capacity as real + Inflow(b.rate, from, a.lastRefill)
  {
    CallsKeepValid(b, times);
    if times == [] {
      if from <= b.lastRefill {
        InflowGrows(b.rate, from, b.lastRefill);
      }
    } else {
      var earlier, now := times[..|times| - 1], times[|times| - 1];
      var before := AfterCalls(b, earlier);
      CallsKeepValid(b, earlier);
      GrantsAndTokens(b, earlier, from, upTo);
      AcquiredValid(before, now);
      if from <= now {
        InflowGrows(b.rate, from, now);
        InflowAdds(b.rate, from, before.lastRefill, now);
      }
    }
  }

  // Calls after the window do not count.
  lemma {:induction false} LaterCallsDontCount(b: Bucket, times: seq<real>, from: real, upTo: real) returns (n: nat)
    requires Ordered(b.lastRefill, times)
    ensures n <= |times| && (n > 0 ==> times[n - 1] <= upTo)
    ensures Grants(b, times, from, upTo) == Grants(b, times[..n], from, upTo)
  {
    if times == [] || times[|times| - 1] <= upTo {
      n := |times|;
      assert times[..n] == times;
    } else {
      n := LaterCallsDontCount(b, times[..|times| - 1], from, upTo);
      assert times[..|times| - 1][..n] == times[..n];
    }
  }

  /** The rate bound, for every window of every run: at most a full bucket and what flows
      in during the window. */
  lemma RateBound(b: Bucket, times: seq<real>, from: real, upTo: real)
    requires b.Valid() && Ordered(b.lastRefill, times) && from <= upTo
    ensures Grants(b, times, from, upTo) as real <= b.capacity as real + Inflow(b.rate, from, upTo)
  {
    var n := LaterCallsDontCount(b, times, from, upTo);
    var a := AfterCalls(b, times[..n]);
    InflowGrows(b.rate, from, upTo);
    CallsKeepValid(b, times[..n]);
    if n > 0 {
      GrantsAndTokens(b, times[..n], from, upTo);
    }
    if n > 0 && from <= a.lastRefill {
      InflowGrows(b.rate, a.lastRefill, upTo);
      InflowAdds(b.rate, from, a.lastRefill, upTo);
    }
  }

  // The last time the bucket was full.
  function FullSince(b: Bucket, times: seq<real>): real {
    if times == [] then b.lastRefill
    else
      var earlier, now := times[..|times| - 1], times[|times| - 1];
      if Refilled(AfterCalls(b, earlier), now).tokens == b.capacity as real then now else FullSince(b, earlier)
  }

  lemma {:induction false} SpentSinceFull(b: Bucket, times: seq<real>, upTo: real)
    requires b.Valid() && b.tokens == b.capacity as real && Ordered(b.lastRefill, times)
    requires AfterCalls(b, times).lastRefill <= upTo
    ensures var a, since := AfterCalls(b, times), FullSince(b, times);
            && since <= a.lastRefill
            && b.capacity as real + Inflow(b.rate, since, a.lastRefill) - a.tokens <= Grants(b, times, since, upTo) as real
  {
    CallsKeepValid(b, times);
    if times != [] {
      var earlier, now := times[..|times| - 1], times[|times| - 1];
      var before := AfterCalls(b, earlier);
      CallsKeepValid(b, earlier);
      SpentSinceFull(b, earlier, upTo);
      AcquiredValid(before, now);
      InflowAdds(b.rate, FullSince(b, earlier), before.lastRefill, now);
      InflowOfNoTime(b.rate, now);
    }
  }

  /** No call is refused without need: when a bucket that started full refuses a call,
      granting it would have broken the rate bound of some window. */
  lemma RefusalIsForced(b: Bucket, times: seq<real>, now: real) returns (from: real)
    requires b.Valid() && b.tokens == b.capacity as real && Ordered(b.lastRefill, times)
    requires now >= AfterCalls(b, times).lastRefill && !Granted(b, times, now)
    ensures from <= now
    ensures Grants(b, times, from, now) as real + 1.0 > b.capacity as real + Inflow(b.rate, from, now)
  {
    var before := AfterCalls(b, times);
    CallsKeepValid(b, times);
    SpentSinceFull(b, times, now);
    AcquiredValid(before, now);
    from := FullSince(b, times);
    InflowAdds(b.rate, from, before.lastRefill, now);
  }

  // ---------- the circuit breaker ----------

  datatype Circuit = Closed | Open | HalfOpen

  datatype Breaker = Breaker(threshold: nat, cooldown: real, state: Circuit, failures: nat, openedAt: real, probing: bool) {
    // A closed breaker has not reached its threshold.
    predicate Valid() {
      threshold >= 1 && cooldown > 0.0 && (state == Closed ==> failures < threshold)
    }
  }

  // The breaker after being asked, and whether it lets the call through.
  function Asked(b: Breaker, now: real): (Breaker, bool) {
    match b.state
    case Closed => (b, true)
    case Open => if now - b.openedAt >= b.cooldown then (b.(state := HalfOpen, probing := true), true) else (b, false)
    case HalfOpen => (b.(probing := true), !b.probing)
  }

  function Succeeded(b: Breaker): Breaker {
    if b.state == HalfOpen then b.(state := Closed, failures := 0, probing := false) else b.(failures := 0)
  }

  function Failed(b: Breaker, now: real): Breaker {
    if b.state == HalfOpen then b.(state := Open, openedAt := now, probing := false)
    else if b.state == Closed && b.failures + 1 >= b.threshold then
      b.(failures := b.failures + 1, state := Open, openedAt := now)
    else b.(failures := b.failures + 1)
  }

  class CircuitBreaker {
    const threshold: nat
    const cooldownSeconds: real
    var state: Circuit
    var failures: nat
    var openedAt: real
    var halfOpenInFlight: bool

    function State(): Breaker
      reads this
    {
      Breaker(threshold, cooldownSeconds, state, failures, openedAt, halfOpenInFlight)
    }

    constructor (threshold: nat, cooldownSeconds: real)
      requires threshold >= 1 && cooldownSeconds > 0.0
      ensures State() == Breaker(threshold, cooldownSeconds, Closed, 0, 0.0, false) && State().Valid()
    {
      this.threshold, this.cooldownSeconds := threshold, cooldownSeconds;
      state, failures, openedAt, halfOpenInFlight := Closed, 0, 0.0, false;
    }

    static method Create(threshold: int, cooldownSeconds: real) returns (b: Option<CircuitBreaker>)
      ensures b.Some? <==> threshold >= 1 && cooldownSeconds > 0.0
      ensures b.Some? ==> fresh(b.value) && b.value.State() == Breaker(threshold, cooldownSeconds, Closed, 0, 0.0, false)
    {
      if threshold < 1 || cooldownSeconds <= 0.0 {
        return None;
      }
      var made := new CircuitBreaker(threshold, cooldownSeconds);
      return Some(made);
    }

    method ShouldAllow(now: real) returns (allowed: bool)
      modifies this
      ensures (State(), allowed) == Asked(old(State()), now)
    {
      if state == Closed {
        return true;
      }
      if state == Open {
        if now - openedAt >= cooldownSeconds {
          state := HalfOpen;
          halfOpenInFlight := false;
        } else {
          return false;
        }
      }
      if halfOpenInFlight {
        return false;
      }
      halfOpenInFlight := true;
      return true;
    }

    method RecordSuccess()
      modifies this
      ensures State() == Succeeded(old(State()))
      ensures old(State().Valid()) ==> State().Valid()
    {
      if state == HalfOpen {
        state := Closed;
        failures := 0;
        halfOpenInFlight := false;
      } else {
        failures := 0;
      }
    }

    method RecordFailure(now: real)
      modifies this
      ensures State() == Failed(old(State()), now)
      ensures old(State().Valid()) ==> State().Valid()
    {
      if state == HalfOpen {
        state := Open;
        openedAt := now;
        halfOpenInFlight := false;
        return;
      }
      failures := failures + 1;
      if failures >= threshold && state == Closed {
        state := Open;
        openedAt := now;
      }
    }
  }

  // ---------- runs of the breaker ----------

  /** Calls are asked for, and results come in, in any order: a result may be that of a
      call let through long before. */
  datatype Event = Ask(now: real) | Success(now: real) | Failure(now: real)

  function Handled(b: Breaker, ev: Event): Breaker {
    match ev
    case Ask(now) => Asked(b, now).0
    case Success(_) => Succeeded(b)
    case Failure(now) => Failed(b, now)
  }

  function AfterEvents(b: Breaker, evs: seq<Event>): Breaker {
    if evs == [] then b else Handled(AfterEvents(b, evs[..|evs| - 1]), evs[|evs| - 1])
  }

  predicate Admits(b: Breaker, evs: seq<Event>, k: nat)
    requires k < |evs|
  {
    evs[k].Ask? && Asked(AfterEvents(b, evs[..k]), evs[k].now).1
  }

  function FailuresSinceSuccess(evs: seq<Event>): nat {
    if evs == [] then 0
    else
      match evs[|evs| - 1]
      case Success(_) => 0
      case Failure(_) => FailuresSinceSuccess(evs[..|evs| - 1]) + 1
      case Ask(_) => FailuresSinceSuccess(evs[..|evs| - 1])
  }

  /** A closed breaker has counted exactly the failures since the last success, and they
      are fewer than its threshold; reaching the threshold opens it. */
  lemma {:induction false} ClosedCountsFailures(b: Breaker, evs: seq<Event>)
    requires b.Valid() && b.state == Closed && b.failures == 0
    ensures var a := AfterEvents(b, evs);
            && a.Valid() && a.threshold == b.threshold && a.cooldown == b.cooldown
            && (a.state == Closed ==> a.failures == FailuresSinceSuccess(evs) < b.threshold)
  {
    if evs != [] {
      ClosedCountsFailures(b, evs[..|evs| - 1]);
    }
  }

  // The failures since the last success have never reached the threshold.
  predicate Quiet(evs: seq<Event>, threshold: nat) {
    forall k :: 0 <= k <= |evs| ==> FailuresSinceSuccess(evs[..k]) < threshold
  }

  /** As long as the failures since the last success stay below the threshold, the breaker
      stays closed and lets every call through; the event at which they first reach it is a
      failure, and opens it there and then. */
  lemma {:induction false} OpensAtThresholdExactly(b: Breaker, evs: seq<Event>, ev: Event)
    requires b.Valid() && b.state == Closed && b.failures == 0 && Quiet(evs, b.threshold)
    ensures AfterEvents(b, evs).state == Closed
    ensures forall now :: Asked(AfterEvents(b, evs), now).1
    ensures var a := AfterEvents(b, evs + [ev]);
            if FailuresSinceSuccess(evs + [ev]) < b.threshold then a.state == Closed
            else ev.Failure? && a.state == Open && a.openedAt == ev.now && a.failures == b.threshold
  {
    if evs != [] {
      var init, last := evs[..|evs| - 1], evs[|evs| - 1];
      assert forall k :: 0 <= k <= |init| ==> init[..k] == evs[..k];
      assert evs[..|evs|] == evs && init + [last] == evs;
      OpensAtThresholdExactly(b, init, last);
    } else {
      assert evs[..0] == [];
    }
    ClosedCountsFailures(b, evs);
    assert (evs + [ev])[..|evs|] == evs;
    assert evs[..|evs|] == evs;
  }

  /** Late results that reach an open breaker change nothing but its count. */
  lemma LateResultsOnlyCount(b: Breaker, now: real)
    requires b.state == Open
    ensures Failed(b, now) == Breaker(b.threshold, b.cooldown, Open, b.failures + 1, b.openedAt, b.probing)
    ensures Succeeded(b) == Breaker(b.threshold, b.cooldown, Open, 0, b.openedAt, b.probing)
  {}

  /** A probe is out exactly while the breaker is half-open. */
  lemma {:induction false} ProbesWhileHalfOpenExactly(b: Breaker, evs: seq<Event>)
    requires b.probing <==> b.state == HalfOpen
    ensures AfterEvents(b, evs).probing <==> AfterEvents(b, evs).state == HalfOpen
  {
    if evs == [] {
    } else {
      ProbesWhileHalfOpenExactly(b, evs[..|evs| - 1]);
    }
  }

  /** An open breaker lets a call through exactly when its cooldown is over, whatever its
      failures, and that call is a probe. */
  lemma CooldownEndsExactly(b: Breaker, now: real)
    requires b.state == Open
    ensures Asked(b, now).1 <==> now - b.openedAt >= b.cooldown
    ensures Asked(b, now).1 ==> Asked(b, now).0 == b.(state := HalfOpen, probing := true)
    ensures !Asked(b, now).1 ==> Asked(b, now).0 == b
  {}

  predicate Chronological(since: real, evs: seq<Event>) {
    (forall i :: 0 <= i < |evs| ==> since <= evs[i].now)
    && forall i, j :: 0 <= i < j < |evs| ==> evs[i].now <= evs[j].now
  }

  // An open breaker stays open, with its opening time, until it is asked late enough.
  lemma {:induction false} OpenUntilCooldown(b: Breaker, evs: seq<Event>)
    requires b.state == Open && Chronological(b.openedAt, evs)
    requires forall i :: 0 <= i < |evs| ==> evs[i].now < b.openedAt + b.cooldown
    ensures var a := AfterEvents(b, evs);
            a.state == Open && a.openedAt == b.openedAt && a.cooldown == b.cooldown
  {
    if evs != [] {
      OpenUntilCooldown(b, evs[..|evs| - 1]);
    }
  }

  /** After the breaker has opened, no call is let through until the cooldown is over,
      whatever late results come in. */
  lemma NothingDuringCooldown(b: Breaker, evs: seq<Event>, k: nat)
    requires b.state == Open && Chronological(b.openedAt, evs) && k < |evs|
    requires Admits(b, evs, k)
    ensures evs[k].now >= b.openedAt + b.cooldown
  {
    if evs[k].now < b.openedAt + b.cooldown {
      OpenUntilCooldown(b, evs[..k]);
    }
  }

  // Opening stamps the time: the breaker is open since the failure that opened it.
  lemma OpeningIsStamped(b: Breaker, ev: Event)
    requires b.state != Open && Handled(b, ev).state == Open
    ensures ev.Failure? && Handled(b, ev).openedAt == ev.now
  {}

  /** From the moment the breaker half-opens until the next result, one call is let
      through: the one that half-opened it. */
  lemma {:induction false} ProbeIsAlone(b: Breaker, now: real, asks: seq<Event>, k: nat)
    requires b.state == Open && Asked(b, now).1
    requires forall ev :: ev in asks ==> ev.Ask?
    requires k < |asks|
    ensures !Admits(Asked(b, now).0, asks, k)
  {
    StaysProbing(Asked(b, now).0, asks[..k]);
  }

  lemma {:induction false} StaysProbing(b: Breaker, asks: seq<Event>)
    requires b.state == HalfOpen && b.probing
    requires forall ev :: ev in asks ==> ev.Ask?
    ensures AfterEvents(b, asks) == b
  {
    if asks != [] {
      StaysProbing(b, asks[..|asks| - 1]);
    }
  }

  // ---------- whose result decides ----------

  /** The breaker together with the calls it has let through and not heard of since. */
  datatype Traffic = Traffic(breaker: Breaker, flying: set<nat>, nextId: nat)

  function Call(t: Traffic, now: real): Traffic {
    var (b, allowed) := Asked(t.breaker, now);
    if allowed then Traffic(b, t.flying + {t.nextId}, t.nextId + 1) else t.(breaker := b)
  }

  function Calls(t: Traffic, nows: seq<real>): Traffic {
    if nows == [] then t else Call(Calls(t, nows[..|nows| - 1]), nows[|nows| - 1])
  }

  function Report(t: Traffic, id: nat, ok: bool, now: real): Traffic {
    Traffic(if ok then Succeeded(t.breaker) else Failed(t.breaker, now), t.flying - {id}, t.nextId)
  }

  // Calls made while the probe is out change nothing.
  lemma {:induction false} CallsWhileProbing(t: Traffic, nows: seq<real>)
    requires t.breaker.state == HalfOpen && t.breaker.probing
    ensures Calls(t, nows) == t
  {
    if nows != [] {
      CallsWhileProbing(t, nows[..|nows| - 1]);
    }
  }

  // A report that decides a half-open breaker.
  predicate Decides(t: Traffic, id: nat, ok: bool, now: real) {
    t.breaker.state == HalfOpen && Report(t, id, ok, now).breaker.state != HalfOpen
  }

  // Any report does, whichever call it is of.
  lemma AnyReportDecides(t: Traffic, id: nat, ok: bool, now: real)
    requires t.breaker.state == HalfOpen
    ensures Decides(t, id, ok, now)
    ensures Report(t, id, ok, now).breaker.state == if ok then Closed else Open
  {}

  /** When the breaker has half-opened, the report of any call in flight decides it; one of
      them can be another call's than the probe's exactly when some earlier call was in
      flight as the probe went out. */
  lemma ProbeDecidesExactly(t: Traffic, now: real, nows: seq<real>)
    requires t.breaker.state == Open && Asked(t.breaker, now).1
    requires forall id :: id in t.flying ==> id < t.nextId
    ensures var probe, u := t.nextId, Calls(Call(t, now), nows);
            && probe in u.flying
            && (forall id, ok, later :: id in u.flying ==> Decides(u, id, ok, later))
            && ((exists id, ok, later :: id in u.flying && id != probe && Decides(u, id, ok, later)) <==> t.flying != {})
  {
    var probe, u := t.nextId, Calls(Call(t, now), nows);
    CallsWhileProbing(Call(t, now), nows);
    assert u.flying == t.flying + {probe};
    forall id, ok, later | id in u.flying ensures Decides(u, id, ok, later) {
      AnyReportDecides(u, id, ok, later);
    }
    if id :| id in t.flying {
      assert id in u.flying && id != probe && Decides(u, id, true, now);
    }
  }

  // Two calls let through one after the other by a fresh breaker.
  lemma TwoCalls(b: Breaker)
    requires b.state == Closed
    ensures Calls(Traffic(b, {}, 0), [0.0, 0.0]) == Traffic(b, {0, 1}, 2)
  {
    assert [0.0, 0.0][..1] == [0.0] && [0.0][..0] == [];
    assert Calls(Traffic(b, {}, 0), [0.0]) == Traffic(b, {0}, 1);
  }

  // Such a run: a late success closes the breaker while its probe is still out.
  lemma LateSuccessCloses(cooldown: real)
    requires cooldown > 0.0
    ensures var b := Breaker(1, cooldown, Closed, 0, 0.0, false);
            var two := Calls(Traffic(b, {}, 0), [0.0, 0.0]);
            var probing := Call(Report(two, 0, false, 0.0), cooldown);
            && probing.breaker.state == HalfOpen && probing.flying == {1, 2}
            && Report(probing, 1, true, cooldown).breaker.state == Closed
            && 2 in Report(probing, 1, true, cooldown).flying
  {
    TwoCalls(Breaker(1, cooldown, Closed, 0, 0.0, false));
  }
}
