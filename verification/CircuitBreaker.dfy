/**
 The circuit breaker of packages/cache/src/circuit-breaker.ts.

 A call asks to be admitted and reports its outcome later, so admissions and outcomes of overlapping
 calls come in any order.  Times are milliseconds.
 */
module CircuitBreaker {
  datatype Circuit = Closed | Open | HalfOpen

  datatype Config = Config(failureThreshold: int, successThreshold: int, timeout: int, resetTimeout: int)

  datatype Breaker = Breaker(
    circuit: Circuit,
    failureCount: int,
    successCount: int,
    nextAttempt: int,
    lastFailureTime: int)

  function Fresh(now: int): Breaker {
    Breaker(Closed, 0, 0, now, now)
  }

  // ---- the transitions ----

  predicate Rejects(b: Breaker, now: int) {
    b.circuit == Open && now < b.nextAttempt
  }

  function AfterAdmit(b: Breaker, now: int): Breaker {
    if b.circuit == Open && b.nextAttempt <= now then b.(circuit := HalfOpen, successCount := 0) else b
  }

  function AfterSuccess(c: Config, b: Breaker, now: int): Breaker {
    var cleared := b.(failureCount := 0);
    var counted :=
      if b.circuit == HalfOpen then
        if b.successCount + 1 >= c.successThreshold then cleared.(circuit := Closed, successCount := 0)
        else cleared.(successCount := b.successCount + 1)
      else cleared;
    if now - b.lastFailureTime > c.resetTimeout then counted.(failureCount := 0) else counted
  }

  function AfterFailure(c: Config, b: Breaker, now: int): Breaker {
    var counted := b.(failureCount := b.failureCount + 1, lastFailureTime := now);
    if b.circuit == HalfOpen || counted.failureCount >= c.failureThreshold
    then counted.(circuit := Open, nextAttempt := now + c.timeout)
    else counted
  }

  function AfterReset(b: Breaker): Breaker {
    b.(circuit := Closed, failureCount := 0, successCount := 0)
  }

  // ---- runs ----

  datatype Event = Ask(now: int) | Success(now: int) | Failure(now: int) | Reset

  function Step(c: Config, b: Breaker, e: Event): Breaker {
    match e
    case Ask(now) => AfterAdmit(b, now)
    case Success(now) => AfterSuccess(c, b, now)
    case Failure(now) => AfterFailure(c, b, now)
    case Reset => AfterReset(b)
  }

  function Run(c: Config, b: Breaker, events: seq<Event>): Breaker {
    if events == [] then b else Step(c, Run(c, b, events[..|events| - 1]), events[|events| - 1])
  }

  /** The failures reported since the last success or reset. */
  function FailuresSince(events: seq<Event>): nat {
    if events == [] then 0 else
      match events[|events| - 1]
      case Ask(_) => FailuresSince(events[..|events| - 1])
      case Failure(_) => FailuresSince(events[..|events| - 1]) + 1
      case Success(_) => 0
      case Reset => 0
  }

  /** The time of the last failure reported, or else of the start. */
  function LastFailure(start: int, events: seq<Event>): int {
    if events == [] then start
    else if events[|events| - 1].Failure? then events[|events| - 1].now
    else LastFailure(start, events[..|events| - 1])
  }

  /**
   However calls overlap: the failure counter counts the failures since the last success or reset,
   a closed circuit is below its failure threshold, a half-open one below its success threshold.
   */
  lemma {:induction false} CountersAreExact(c: Config, start: int, events: seq<Event>)
    requires c.failureThreshold >= 1 && c.successThreshold >= 1
    ensures var b := Run(c, Fresh(start), events);
            && b.failureCount == FailuresSince(events) && b.lastFailureTime == LastFailure(start, events)
            && (b.circuit == Closed ==> b.failureCount < c.failureThreshold)
            && (b.circuit == HalfOpen ==> 0 <= b.successCount < c.successThreshold)
    decreases |events|
  {
    if events != [] {
      CountersAreExact(c, start, events[..|events| - 1]);
    }
  }

  /** The last branch of onSuccess never matters: the counter is already zero. */
  lemma ResetTimeoutNeverMatters(c: Config, d: Config, b: Breaker, now: int)
    requires d == c.(resetTimeout := d.resetTimeout)
    ensures AfterSuccess(c, b, now) == AfterSuccess(d, b, now)
  {
  }

  // ---- how long an open circuit waits ----

  /** Event `i` is a failure of a half-open circuit, or the threshold-th in a row, or one beyond it. */
  ghost predicate Opens(c: Config, start: int, events: seq<Event>, i: nat) {
    && i < |events| && events[i].Failure?
    && (Run(c, Fresh(start), events[..i]).circuit == HalfOpen || FailuresSince(events[..i + 1]) >= c.failureThreshold)
  }

  /**
   Event `i` and all later ones leave the circuit open.  No later one is a request from `until` on, and
   no later failure makes the threshold.
   */
  ghost predicate OpenSince(c: Config, start: int, events: seq<Event>, i: nat, until: int) {
    i < |events| && Run(c, Fresh(start), events).circuit == Open &&
    var n := |events| - 1;
    i == n ||
    (&& (events[n].Ask? ==> events[n].now < until)
     && (events[n].Failure? ==> FailuresSince(events) < c.failureThreshold)
     && OpenSince(c, start, events[..n], i, until))
  }

  lemma {:induction false} FailuresCounted(c: Config, start: int, events: seq<Event>)
    ensures Run(c, Fresh(start), events).failureCount == FailuresSince(events)
    decreases |events|
  {
    if events != [] {
      FailuresCounted(c, start, events[..|events| - 1]);
    }
  }

  /**
   Every open circuit was opened, or found open at the threshold, by some failure, and has been open
   since.  It rejects exactly what comes within the timeout of that failure, and all requests since were.
   */
  lemma {:induction false} OpenWaits(c: Config, start: int, events: seq<Event>) returns (i: nat)
    requires Run(c, Fresh(start), events).circuit == Open
    ensures Opens(c, start, events, i) && OpenSince(c, start, events, i, events[i].now + c.timeout)
    ensures forall now :: Rejects(Run(c, Fresh(start), events), now) <==> now < events[i].now + c.timeout
    decreases |events|
  {
    var n := |events| - 1;
    var before := events[..n];
    FailuresCounted(c, start, events);
    FailuresCounted(c, start, before);
    if events[n].Failure?
       && (Run(c, Fresh(start), before).circuit == HalfOpen || FailuresSince(events) >= c.failureThreshold) {
      i := n;
      assert events[..n + 1] == events;
    } else {
      i := OpenWaits(c, start, before);
      assert before[..i] == events[..i] && before[..i + 1] == events[..i + 1];
      assert Rejects(Run(c, Fresh(start), before), events[i].now + c.timeout - 1);
      assert !Rejects(Run(c, Fresh(start), before), events[i].now + c.timeout);
    }
  }

  /**
   A circuit that half-opens has waited: a failure at least the timeout ago opened it, or found it open
   at the threshold, and every request since then was rejected.
   */
  lemma HalfOpeningWaited(c: Config, start: int, events: seq<Event>, now: int) returns (i: nat)
    requires Run(c, Fresh(start), events).circuit == Open
    requires Run(c, Fresh(start), events + [Ask(now)]).circuit == HalfOpen
    ensures Opens(c, start, events, i) && events[i].now + c.timeout <= now
    ensures OpenSince(c, start, events, i, events[i].now + c.timeout)
  {
    i := OpenWaits(c, start, events);
    assert (events + [Ask(now)])[..|events|] == events;
    assert !Rejects(Run(c, Fresh(start), events), now);
  }

  // ---- recovery ----

  function Successes(events: seq<Event>): nat {
    if events == [] then 0 else
      Successes(events[..|events| - 1]) + if events[|events| - 1].Success? then 1 else 0
  }

  /** Event `i` half-opens the open circuit, which stays half-open to the end; no failure comes. */
  ghost predicate HalfOpenFrom(c: Config, b: Breaker, events: seq<Event>, i: nat) {
    i < |events| &&
    var n := |events| - 1;
    && !events[n].Failure? && Run(c, b, events).circuit == HalfOpen
    && if i == n then Run(c, b, events[..n]).circuit == Open else HalfOpenFrom(c, b, events[..n], i)
  }

  lemma SuccessesSnoc(events: seq<Event>, i: nat)
    requires i < |events|
    ensures Successes(events[i..]) ==
            Successes(events[..|events| - 1][i..]) + if events[|events| - 1].Success? then 1 else 0
  {
    var n := |events| - 1;
    assert events[i..][..n - i] == events[..n][i..];
  }

  /** A half-open circuit that was open has counted every success of its current half-open period. */
  lemma {:induction false} HalfOpenPeriod(c: Config, b: Breaker, events: seq<Event>) returns (i: nat)
    requires b.circuit == Open && Reset !in events && Run(c, b, events).circuit == HalfOpen
    ensures HalfOpenFrom(c, b, events, i)
    ensures Successes(events[i..]) == Run(c, b, events).successCount
    decreases |events|
  {
    var n := |events| - 1;
    var before, last := events[..n], events[n];
    assert last in events;
    if Run(c, b, before).circuit == HalfOpen {
      i := HalfOpenPeriod(c, b, before);
      SuccessesSnoc(events, i);
    } else {
      i := n;
      assert events[n..] == [last] && [last][..0] == [];
    }
  }

  /**
   Without a manual reset, an open circuit closes only through one half-open period with as many
   successes as the threshold asks for and no failure.
   */
  lemma {:induction false} ClosingTakesSuccesses(c: Config, b: Breaker, events: seq<Event>)
    returns (i: nat, j: nat)
    requires b.circuit == Open && Reset !in events && Run(c, b, events).circuit == Closed
    requires c.successThreshold >= 1
    ensures i < j < |events| && events[j].Success?
    ensures HalfOpenFrom(c, b, events[..j], i)
    ensures Successes(events[i..j + 1]) >= c.successThreshold
    decreases |events|
  {
    var n := |events| - 1;
    var before, last := events[..n], events[n];
    assert last in events;
    if Run(c, b, before).circuit == Closed {
      i, j := ClosingTakesSuccesses(c, b, before);
      assert before[..j] == events[..j] && before[i..j + 1] == events[i..j + 1];
    } else {
      j := n;
      i := HalfOpenPeriod(c, b, before);
      assert events[i..n + 1] == before[i..] + [last];
      assert (before[i..] + [last])[..n - i] == before[i..];
    }
  }

  function SuccessesAt(times: seq<int>): (events: seq<Event>)
    ensures |events| == |times| && forall i :: 0 <= i < |events| ==> events[i] == Success(times[i])
  {
    seq(|times|, i requires 0 <= i < |times| => Success(times[i]))
  }

  /**
   An open circuit that is asked again once it has waited half-opens, and closes with as many successes
   as the threshold asks for, and at least one: no fewer, and no more.
   */
  lemma {:induction false} RecoversIff(c: Config, b: Breaker, now: int, times: seq<int>)
    requires b.circuit == Open
    ensures var r := Run(c, b, [Ask(now)] + SuccessesAt(times));
            && r.circuit == (if now < b.nextAttempt then Open
                             else if times != [] && |times| >= c.successThreshold then Closed else HalfOpen)
            && (r.circuit == HalfOpen ==> r.successCount == |times|)
            && (times != [] ==> r.failureCount == 0)
    decreases |times|
  {
    var events := [Ask(now)] + SuccessesAt(times);
    if times == [] {
      assert events == [Ask(now)] && events[..0] == [];
      assert Run(c, b, events) == AfterAdmit(b, now);
    } else {
      var n := |times| - 1;
      RecoversIff(c, b, now, times[..n]);
      assert events[..n + 1] == [Ask(now)] + SuccessesAt(times[..n]);
      assert events[n + 1] == Success(times[n]);
    }
  }

  // ---- staying closed ----

  /** How many failures it takes to open the circuit. */
  function Tries(c: Config): int {
    if c.failureThreshold < 1 then 1 else c.failureThreshold
  }

  /** The longest series of failures without a success or a reset between them. */
  function MostInARow(events: seq<Event>): nat {
    if events == [] then 0 else
      var before := MostInARow(events[..|events| - 1]);
      if FailuresSince(events) > before then FailuresSince(events) else before
  }

  /** The circuit is closed after each of the events. */
  predicate StaysClosed(c: Config, b: Breaker, events: seq<Event>) {
    Run(c, b, events).circuit == Closed && (events == [] || StaysClosed(c, b, events[..|events| - 1]))
  }

  lemma {:induction false} ClosedUntilFailures(c: Config, b: Breaker, events: seq<Event>)
    requires b.circuit == Closed && b.failureCount == 0
    ensures Run(c, b, events).failureCount == FailuresSince(events)
    ensures StaysClosed(c, b, events) <==> MostInARow(events) < Tries(c)
    decreases |events|
  {
    if events != [] {
      ClosedUntilFailures(c, b, events[..|events| - 1]);
    }
  }

  /** A manual reset closes the circuit, and it stays closed exactly until the threshold's failures in a row. */
  lemma ResetStaysClosedIff(c: Config, b: Breaker, events: seq<Event>)
    ensures StaysClosed(c, Step(c, b, Reset), events) <==> MostInARow(events) < Tries(c)
  {
    ClosedUntilFailures(c, Step(c, b, Reset), events);
  }

  // ---- an outage ----

  /** One call after another, each failing when it is admitted. */
  datatype Call = Call(start: int, end: int)

  predicate OneAtATime(calls: seq<Call>) {
    calls == [] ||
    var n := |calls| - 1;
    && OneAtATime(calls[..n]) && calls[n].start <= calls[n].end
    && (n > 0 ==> calls[n - 1].end <= calls[n].start)
  }

  function AfterOutage(c: Config, born: int, calls: seq<Call>): Breaker {
    if calls == [] then Fresh(born) else
      var b := AfterOutage(c, born, calls[..|calls| - 1]);
      var call := calls[|calls| - 1];
      if Rejects(b, call.start) then b else AfterFailure(c, AfterAdmit(b, call.start), call.end)
  }

  /** The start times of the calls that reach the backend. */
  function Reaching(c: Config, born: int, calls: seq<Call>): seq<int> {
    if calls == [] then [] else
      var n := |calls| - 1;
      Reaching(c, born, calls[..n]) +
      if Rejects(AfterOutage(c, born, calls[..n]), calls[n].start) then [] else [calls[n].start]
  }

  function CountUpTo(times: seq<int>, limit: int): nat {
    if times == [] then 0 else
      CountUpTo(times[..|times| - 1], limit) + if times[|times| - 1] <= limit then 1 else 0
  }

  /** The n-th call to reach the backend starts this long after the first at the earliest. */
  function Earliest(c: Config, n: int): int {
    if n <= Tries(c) then 0 else (n - Tries(c)) * c.timeout
  }

  ghost predicate Spread(c: Config, first: int, times: seq<int>) {
    forall i :: 0 <= i < |times| ==> first + Earliest(c, i + 1) <= times[i]
  }

  lemma EarliestGrows(c: Config, n: int)
    requires c.timeout > 0
    ensures Earliest(c, n + 1) == if n < Tries(c) then 0 else Earliest(c, n) + c.timeout
  {
  }

  lemma {:induction false} OutageSpreadsCalls(c: Config, born: int, calls: seq<Call>)
    requires c.timeout > 0 && OneAtATime(calls) && calls != []
    ensures var b, times := AfterOutage(c, born, calls), Reaching(c, born, calls);
            && Spread(c, calls[0].start, times)
            && b.failureCount == |times|
            && calls[0].start <= calls[|calls| - 1].start
            && (if |times| < Tries(c) then b.circuit == Closed
                else b.circuit == Open && calls[0].start + Earliest(c, |times| + 1) <= b.nextAttempt)
    decreases |calls|
  {
    var n := |calls| - 1;
    var before := calls[..n];
    if n == 0 {
      assert before == [];
    } else {
      assert before[0] == calls[0];
      OutageSpreadsCalls(c, born, before);
      EarliestGrows(c, |Reaching(c, born, before)|);
      EarliestGrows(c, |Reaching(c, born, before)| + 1);
    }
  }

  /** If the n-th call can start within `t`, then n is bounded. */
  lemma EarliestBound(c: Config, n: nat, t: int)
    requires c.timeout > 0 && t >= 0 && Earliest(c, n) <= t
    ensures n <= Tries(c) + t / c.timeout
  {
    if n > Tries(c) {
      Quotient(n - Tries(c), c.timeout, t);
    }
  }

  lemma {:induction false} SpreadBoundsCount(c: Config, first: int, times: seq<int>, t: int, most: int)
    requires t >= 0 && Spread(c, first, times) && forall n: nat :: Earliest(c, n) <= t ==> n <= most
    ensures CountUpTo(times, first + t) <= most
    decreases |times|
  {
    var n := |times|;
    if n == 0 || times[n - 1] <= first + t {
      assert Earliest(c, n) <= t;
      CountAtMost(times, first + t);
    } else {
      SpreadBoundsCount(c, first, times[..n - 1], t, most);
    }
  }

  lemma {:induction false} CountAtMost(times: seq<int>, limit: int)
    ensures CountUpTo(times, limit) <= |times|
    decreases |times|
  {
    if times != [] {
      CountAtMost(times[..|times| - 1], limit);
    }
  }

  lemma Quotient(k: int, d: int, t: int)
    requires d > 0 && k * d <= t
    ensures k <= t / d
  {
    assert k * d < (t / d + 1) * d;
    Cancel(k, t / d + 1, d);
  }

  lemma Cancel(k: int, m: int, d: int)
    requires d > 0 && k * d < m * d
    ensures k < m
  {
  }

  /**
   From a fresh breaker, with calls one at a time that all fail, at most
   failureThreshold + floor(t / timeout) of them reach the backend within `t` of the first.
   */
  lemma OutageBound(c: Config, born: int, calls: seq<Call>, t: int)
    requires c.timeout > 0 && t >= 0 && OneAtATime(calls) && calls != []
    ensures CountUpTo(Reaching(c, born, calls), calls[0].start + t) <= Tries(c) + t / c.timeout
  {
    OutageSpreadsCalls(c, born, calls);
    forall n: nat | Earliest(c, n) <= t ensures n <= Tries(c) + t / c.timeout {
      EarliestBound(c, n, t);
    }
    SpreadBoundsCount(c, calls[0].start, Reaching(c, born, calls), t, Tries(c) + t / c.timeout);
  }

  // ---- the class ----

  datatype Outcome = Rejected | Returned | Threw

  class CircuitBreaker {
    const config: Config
    var circuit: Circuit
    var failureCount: int
    var successCount: int
    var nextAttempt: int
    var lastFailureTime: int

    function Contents(): Breaker
      reads this
    {
      Breaker(circuit, failureCount, successCount, nextAttempt, lastFailureTime)
    }

    constructor (config: Config, now: int)
      ensures this.config == config && Contents() == Fresh(now)
    {
      this.config := config;
      circuit, failureCount, successCount, nextAttempt, lastFailureTime := Closed, 0, 0, now, now;
    }

    /** A call that nothing overlaps: it starts at `start` and, if admitted, ends at `end`. */
    method Execute(start: int, end: int, works: bool) returns (outcome: Outcome)
      modifies this
      ensures outcome == if Rejects(old(Contents()), start) then Rejected else if works then Returned else Threw
      ensures Contents() ==
              if Rejects(old(Contents()), start) then old(Contents())
              else if works then AfterSuccess(config, AfterAdmit(old(Contents()), start), end)
              else AfterFailure(config, AfterAdmit(old(Contents()), start), end)
    {
      if circuit == Open {
        if start < nextAttempt {
          return Rejected;
        }
        circuit := HalfOpen;
        successCount := 0;
      }
      if works {
        OnSuccess(end);
        return Returned;
      }
      OnFailure(end);
      return Threw;
    }

    method OnSuccess(now: int)
      modifies this
      ensures Contents() == AfterSuccess(config, old(Contents()), now)
    {
      failureCount := 0;
      if circuit == HalfOpen {
        successCount := successCount + 1;
        if successCount >= config.successThreshold {
          circuit := Closed;
          successCount := 0;
        }
      }
      if now - lastFailureTime > config.resetTimeout {
        failureCount := 0;
      }
    }

    method OnFailure(now: int)
      modifies this
      ensures Contents() == AfterFailure(config, old(Contents()), now)
    {
      failureCount := failureCount + 1;
      lastFailureTime := now;
      if circuit == HalfOpen {
        circuit := Open;
        nextAttempt := now + config.timeout;
        return;
      }
      if failureCount >= config.failureThreshold {
        circuit := Open;
        nextAttempt := now + config.timeout;
      }
    }

    method Reset()
      modifies this
      ensures Contents() == AfterReset(old(Contents()))
    {
      circuit, failureCount, successCount := Closed, 0, 0;
    }
  }
}
