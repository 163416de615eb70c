/**
 processConcurrently of apps/worker/src/workers/aggregation-stream.worker.ts, and its caller's counting.

 Between two awaits a worker runs alone, so a step is one call that settles, together with what its
 worker does next: take the first item of the shared queue, or stop.  Items are their positions.
 */
module WorkerPool {

  datatype Worker = Busy(item: nat) | Stopped | Dead

  /** The caller's function counts a success or a failure itself; a rejection is one that it lets through. */
  datatype Outcome = Succeeds | Fails | Rejects

  /** `calls` counts, for each item, how often the function was called on it. */
  datatype State = State(
    queue: seq<nat>,
    workers: seq<Worker>,
    calls: seq<nat>,
    aggregated: nat,
    failed: seq<nat>,
    rejected: nat)

  datatype Event = Settle(worker: nat, outcome: Outcome)

  function Least(a: int, b: int): int {
    if a < b then a else b
  }

  /** `Array.from` makes no worker for a length of zero or less. */
  function PoolSize(n: nat, concurrency: int): nat {
    if concurrency < 0 then 0 else Least(concurrency, n)
  }

  /** Every worker runs up to its first await, in order: worker i has taken item i. */
  function Init(n: nat, concurrency: int): State {
    var size := PoolSize(n, concurrency);
    State(seq(n - size, i requires 0 <= i => size + i),
          seq(size, i requires 0 <= i => Busy(i)),
          seq(n, i requires 0 <= i => if i < size then 1 else 0),
          0, [], 0)
  }

  predicate Enabled(s: State, e: Event) {
    e.worker < |s.workers| && s.workers[e.worker].Busy?
  }

  function Counted(s: State, e: Event): State
    requires Enabled(s, e)
  {
    match e.outcome
    case Succeeds => s.(aggregated := s.aggregated + 1)
    case Fails => s.(failed := s.failed + [s.workers[e.worker].item])
    case Rejects => s.(rejected := s.rejected + 1)
  }

  function Apply(s: State, e: Event): State
    requires Enabled(s, e)
    requires s.queue != [] ==> s.queue[0] < |s.calls|
  {
    var t := Counted(s, e);
    if e.outcome == Rejects then t.(workers := t.workers[e.worker := Dead])
    else if t.queue == [] then t.(workers := t.workers[e.worker := Stopped])
    else
      var item := t.queue[0];
      t.(queue := t.queue[1..],
         workers := t.workers[e.worker := Busy(item)],
         calls := t.calls[item := t.calls[item] + 1])
  }

  // ---- what every run keeps ----

  function CountBusy(workers: seq<Worker>): nat {
    if workers == [] then 0 else CountBusy(workers[1..]) + if workers[0].Busy? then 1 else 0
  }

  function CountDead(workers: seq<Worker>): nat {
    if workers == [] then 0 else CountDead(workers[1..]) + if workers[0].Dead? then 1 else 0
  }

  function Settled(s: State): nat {
    s.aggregated + |s.failed| + s.rejected
  }

  /** The queue holds the items from `next` on; those before have been called once, those from there on not yet. */
  ghost predicate Inv(n: nat, s: State) {
    var next := n - |s.queue|;
    && |s.queue| <= n && |s.calls| == n
    && (forall i :: 0 <= i < |s.queue| ==> s.queue[i] == next + i)
    && (forall i :: 0 <= i < n ==> s.calls[i] == if i < next then 1 else 0)
    && Settled(s) + CountBusy(s.workers) == next
    && s.rejected == CountDead(s.workers)
    && (forall w :: 0 <= w < |s.workers| && s.workers[w].Stopped? ==> s.queue == [])
  }

  lemma {:induction false} CountAfter(workers: seq<Worker>, w: nat, to: Worker)
    requires w < |workers|
    ensures CountBusy(workers[w := to]) ==
            CountBusy(workers) - (if workers[w].Busy? then 1 else 0) + (if to.Busy? then 1 else 0)
    ensures CountDead(workers[w := to]) ==
            CountDead(workers) - (if workers[w].Dead? then 1 else 0) + (if to.Dead? then 1 else 0)
    decreases |workers|
  {
    if w > 0 {
      CountAfter(workers[1..], w - 1, to);
      assert workers[w := to][1..] == workers[1..][w - 1 := to];
    } else {
      assert workers[0 := to][1..] == workers[1..];
    }
  }

  lemma {:induction false} AllBusy(workers: seq<Worker>)
    requires forall w :: 0 <= w < |workers| ==> workers[w].Busy?
    ensures CountBusy(workers) == |workers| && CountDead(workers) == 0
    decreases |workers|
  {
    if workers != [] {
      AllBusy(workers[1..]);
    }
  }

  lemma InitHolds(n: nat, concurrency: int)
    ensures Inv(n, Init(n, concurrency))
  {
    AllBusy(Init(n, concurrency).workers);
  }

  lemma StepKeepsInv(n: nat, s: State, e: Event)
    requires Inv(n, s) && Enabled(s, e)
    ensures Inv(n, Apply(s, e)) && Settled(Apply(s, e)) == Settled(s) + 1
    ensures |Apply(s, e).workers| == |s.workers|
    ensures s.queue != [] && e.outcome != Rejects ==> |Apply(s, e).queue| == |s.queue| - 1
  {
    var to := if e.outcome == Rejects then Dead else if s.queue == [] then Stopped else Busy(s.queue[0]);
    CountAfter(s.workers, e.worker, to);
  }

  /** A run from a state: every event settles a call in flight. */
  predicate IsRun(n: nat, s: State, events: seq<Event>)
    requires Inv(n, s)
    decreases |events|
  {
    events == [] ||
    (Enabled(s, events[0]) && (StepKeepsInv(n, s, events[0]); IsRun(n, Apply(s, events[0]), events[1..])))
  }

  function Run(n: nat, s: State, events: seq<Event>): (r: State)
    requires Inv(n, s) && IsRun(n, s, events)
    ensures Inv(n, r) && Settled(r) == Settled(s) + |events| && |r.workers| == |s.workers|
    decreases |events|
  {
    if events == [] then s else
      StepKeepsInv(n, s, events[0]);
      Run(n, Apply(s, events[0]), events[1..])
  }

  predicate Quiet(s: State) {
    forall w :: 0 <= w < |s.workers| ==> !s.workers[w].Busy?
  }

  lemma {:induction false} QuietCounts(workers: seq<Worker>)
    requires forall w :: 0 <= w < |workers| ==> !workers[w].Busy?
    ensures CountBusy(workers) == 0 && CountDead(workers) <= |workers|
    ensures CountDead(workers) < |workers| ==> exists w :: 0 <= w < |workers| && workers[w].Stopped?
    decreases |workers|
  {
    if workers != [] {
      QuietCounts(workers[1..]);
      if CountDead(workers) < |workers| {
        if workers[0].Dead? {
          var w :| 0 <= w < |workers[1..]| && workers[1..][w].Stopped?;
          assert workers[w + 1].Stopped?;
        } else {
          assert workers[0].Stopped?;
        }
      }
    }
  }

  lemma {:induction false} BusyIsBounded(workers: seq<Worker>)
    ensures CountBusy(workers) <= |workers|
    ensures CountBusy(workers) > 0 ==> exists w :: 0 <= w < |workers| && workers[w].Busy?
    decreases |workers|
  {
    if workers != [] {
      BusyIsBounded(workers[1..]);
      if workers[0].Busy? {
        assert workers[0].Busy?;
      } else if CountBusy(workers) > 0 {
        var w :| 0 <= w < |workers[1..]| && workers[1..][w].Busy?;
        assert workers[w + 1].Busy?;
      }
    }
  }

  predicate IsRunFrom(n: nat, concurrency: int, events: seq<Event>) {
    InitHolds(n, concurrency);
    IsRun(n, Init(n, concurrency), events)
  }

  function After(n: nat, concurrency: int, events: seq<Event>): State
    requires IsRunFrom(n, concurrency, events)
  {
    InitHolds(n, concurrency);
    Run(n, Init(n, concurrency), events)
  }

  // ---- the theorems ----

  /**
   In every interleaving: at most min(concurrency, n) calls are in flight, no item is called twice, and
   the calls that have settled are the successes, the failures and the rejections.
   */
  lemma PoolIsBounded(n: nat, concurrency: int, events: seq<Event>)
    requires IsRunFrom(n, concurrency, events)
    ensures var s := After(n, concurrency, events);
            && CountBusy(s.workers) <= PoolSize(n, concurrency)
            && (forall i :: 0 <= i < n ==> s.calls[i] <= 1)
            && s.aggregated + |s.failed| + s.rejected == |events|
  {
    InitHolds(n, concurrency);
    BusyIsBounded(After(n, concurrency, events).workers);
  }

  /** Every run ends: it has at most n steps, and as long as a call is in flight there is a next step. */
  lemma PoolTerminates(n: nat, concurrency: int, events: seq<Event>)
    requires IsRunFrom(n, concurrency, events)
    ensures |events| <= n
    ensures Quiet(After(n, concurrency, events)) || exists e :: Enabled(After(n, concurrency, events), e)
  {
    InitHolds(n, concurrency);
    var s := After(n, concurrency, events);
    if !Quiet(s) {
      var w :| 0 <= w < |s.workers| && s.workers[w].Busy?;
      assert Enabled(s, Settle(w, Succeeds));
    }
  }

  ghost predicate AllCalledOnce(n: nat, s: State) {
    |s.calls| == n && forall i :: 0 <= i < n ==> s.calls[i] == 1
  }

  /**
   When everything has settled and fewer calls were rejected than there are workers, the function has
   been called exactly once on every item, and every item is counted.
   */
  lemma EveryItemOnce(n: nat, concurrency: int, events: seq<Event>)
    requires IsRunFrom(n, concurrency, events)
    requires var s := After(n, concurrency, events); Quiet(s) && s.rejected < PoolSize(n, concurrency)
    ensures var s := After(n, concurrency, events);
            AllCalledOnce(n, s) && s.aggregated + |s.failed| + s.rejected == n
  {
    InitHolds(n, concurrency);
    QuietCounts(After(n, concurrency, events).workers);
  }

  /** What the caller relies on: without rejections, successes and failures add up to the number of links. */
  ghost predicate CallerIsRight(n: nat, concurrency: int) {
    forall events {:trigger IsRunFrom(n, concurrency, events)} | IsRunFrom(n, concurrency, events) ::
      var s := After(n, concurrency, events);
      Quiet(s) && s.rejected == 0 ==> AllCalledOnce(n, s) && s.aggregated + |s.failed| == n
  }

  /** That holds exactly when at least one worker is asked for, or there is nothing to do. */
  lemma CallerIsRightIff(n: nat, concurrency: int)
    ensures CallerIsRight(n, concurrency) <==> concurrency >= 1 || n == 0
  {
    if concurrency >= 1 && n > 0 {
      forall events {:trigger IsRunFrom(n, concurrency, events)} | IsRunFrom(n, concurrency, events)
        ensures var s := After(n, concurrency, events);
                Quiet(s) && s.rejected == 0 ==> AllCalledOnce(n, s) && s.aggregated + |s.failed| == n
      {
        if Quiet(After(n, concurrency, events)) && After(n, concurrency, events).rejected == 0 {
          EveryItemOnce(n, concurrency, events);
        }
      }
    } else if n == 0 {
      forall events {:trigger IsRunFrom(n, concurrency, events)} | IsRunFrom(n, concurrency, events)
        ensures AllCalledOnce(n, After(n, concurrency, events)) && Settled(After(n, concurrency, events)) == 0
      {
        PoolTerminates(n, concurrency, events);
        PoolIsBounded(n, concurrency, events);
      }
    } else {
      assert IsRunFrom(n, concurrency, []);
      var s := After(n, concurrency, []);
      assert Quiet(s) && s.calls[0] == 0;
    }
  }

  // ---- rejections ----

  function Rejections(from: nat, size: nat): seq<Event>
    requires from <= size
    decreases size - from
  {
    if from == size then [] else [Settle(from, Rejects)] + Rejections(from + 1, size)
  }

  lemma {:induction false} RejectTheRest(n: nat, s: State, from: nat)
    requires Inv(n, s) && from <= |s.workers|
    requires forall w :: 0 <= w < |s.workers| ==> if w < from then s.workers[w].Dead? else s.workers[w].Busy?
    ensures IsRun(n, s, Rejections(from, |s.workers|))
    ensures var r := Run(n, s, Rejections(from, |s.workers|));
            Quiet(r) && r.queue == s.queue && r.rejected == s.rejected + |s.workers| - from
    decreases |s.workers| - from
  {
    if from < |s.workers| {
      var e := Settle(from, Rejects);
      StepKeepsInv(n, s, e);
      RejectTheRest(n, Apply(s, e), from + 1);
      var events := Rejections(from, |s.workers|);
      assert events[0] == e && events[1..] == Rejections(from + 1, |s.workers|);
    }
  }

  /**
   A rejection ends its worker, and when all workers have ended, the items still queued are never
   called, although nothing is in flight.
   */
  lemma RejectionsStarveTheQueue(n: nat, concurrency: int)
    requires PoolSize(n, concurrency) < n
    ensures var events := Rejections(0, PoolSize(n, concurrency));
            && IsRunFrom(n, concurrency, events)
            && var s := After(n, concurrency, events);
               Quiet(s) && s.rejected == PoolSize(n, concurrency) && !AllCalledOnce(n, s)
  {
    InitHolds(n, concurrency);
    var s := Init(n, concurrency);
    var size := PoolSize(n, concurrency);
    RejectTheRest(n, s, 0);
    var r := After(n, concurrency, Rejections(0, size));
    assert r.queue == s.queue && |s.queue| == n - size;
    assert r.calls[size] == 0;
  }

  /** Whatever the interleaving: once all is quiet with at most `r` rejections, every item has been called once. */
  ghost predicate NeverStarves(n: nat, concurrency: int, r: nat) {
    forall events {:trigger IsRunFrom(n, concurrency, events)} | IsRunFrom(n, concurrency, events) ::
      var s := After(n, concurrency, events);
      Quiet(s) && s.rejected <= r ==> AllCalledOnce(n, s)
  }

  /** That holds exactly when some worker outlives the rejections, or there is a worker for every item. */
  lemma NeverStarvesIff(n: nat, concurrency: int, r: nat)
    ensures NeverStarves(n, concurrency, r) <==> r < PoolSize(n, concurrency) || PoolSize(n, concurrency) == n
  {
    var size := PoolSize(n, concurrency);
    if size <= r && size < n {
      RejectionsStarveTheQueue(n, concurrency);
      assert IsRunFrom(n, concurrency, Rejections(0, size));
    } else {
      forall events {:trigger IsRunFrom(n, concurrency, events)} | IsRunFrom(n, concurrency, events)
        ensures var s := After(n, concurrency, events); Quiet(s) && s.rejected <= r ==> AllCalledOnce(n, s)
      {
        var s := After(n, concurrency, events);
        if Quiet(s) && s.rejected <= r {
          if size == n {
            InitHolds(n, concurrency);
            NoneQueued(n, Init(n, concurrency), events);
          } else {
            EveryItemOnce(n, concurrency, events);
          }
        }
      }
    }
  }

  /** Where no item is left in the queue, every item has been called. */
  lemma {:induction false} NoneQueued(n: nat, s: State, events: seq<Event>)
    requires Inv(n, s) && IsRun(n, s, events) && s.queue == []
    ensures AllCalledOnce(n, Run(n, s, events))
    decreases |events|
  {
    if events != [] {
      StepKeepsInv(n, s, events[0]);
      NoneQueued(n, Apply(s, events[0]), events[1..]);
    }
  }
}
