/**
 CacheMetricsTracker of packages/telemetry/src/metrics.ts: cache hits and misses in one-minute buckets,
 against the log of all calls, reads and resets included.  Times are milliseconds.
 */
module HitRate {

  const BUCKET_MS: int := 60000
  const WINDOW_MS: int := 300000

  datatype Bucket = Bucket(ts: int, hits: nat, misses: nat)

  /** One call of the tracker. */
  datatype Event = Record(time: int, hit: bool) | Read(time: int) | Reset(time: int)

  function Minute(time: int): int {
    (time / BUCKET_MS) * BUCKET_MS
  }

  // ---- the buckets ----

  function Evict(buckets: seq<Bucket>, cutoff: int): seq<Bucket> {
    if buckets == [] then [] else
      var n := |buckets| - 1;
      if buckets[n].ts >= cutoff then Evict(buckets[..n], cutoff) + [buckets[n]] else Evict(buckets[..n], cutoff)
  }

  /** The first bucket of the minute, or the end. */
  function Position(buckets: seq<Bucket>, ts: int): (i: nat)
    ensures i <= |buckets| && (i < |buckets| ==> buckets[i].ts == ts)
  {
    PositionFrom(buckets, ts, 0)
  }

  function PositionFrom(buckets: seq<Bucket>, ts: int, i: nat): (r: nat)
    requires i <= |buckets|
    ensures i <= r <= |buckets| && (r < |buckets| ==> buckets[r].ts == ts)
    decreases |buckets| - i
  {
    if i == |buckets| || buckets[i].ts == ts then i else PositionFrom(buckets, ts, i + 1)
  }

  lemma {:induction false} PositionIsFirst(buckets: seq<Bucket>, ts: int, i: nat)
    requires i <= |buckets|
    ensures forall k :: i <= k < PositionFrom(buckets, ts, i) ==> buckets[k].ts != ts
    decreases |buckets| - i
  {
    if i < |buckets| && buckets[i].ts != ts {
      PositionIsFirst(buckets, ts, i + 1);
    }
  }

  function Count(b: Bucket, hit: bool): Bucket {
    if hit then b.(hits := b.hits + 1) else b.(misses := b.misses + 1)
  }

  function Bump(buckets: seq<Bucket>, ts: int, hit: bool): seq<Bucket> {
    var i := Position(buckets, ts);
    if i < |buckets| then buckets[i := Count(buckets[i], hit)] else buckets + [Count(Bucket(ts, 0, 0), hit)]
  }

  function After(buckets: seq<Bucket>, e: Event): seq<Bucket> {
    match e
    case Record(time, hit) => Bump(Evict(buckets, time - WINDOW_MS), Minute(time), hit)
    case Read(time) => Evict(buckets, time - WINDOW_MS)
    case Reset(_) => []
  }

  function Run(log: seq<Event>): seq<Bucket> {
    if log == [] then [] else After(Run(log[..|log| - 1]), log[|log| - 1])
  }

  function Part(b: Bucket, hit: bool): nat {
    if hit then b.hits else b.misses
  }

  /** The hits, or the misses, of the buckets that are no older than the cutoff. */
  function Sum(buckets: seq<Bucket>, hit: bool, cutoff: int): nat {
    if buckets == [] then 0 else
      var n := |buckets| - 1;
      Sum(buckets[..n], hit, cutoff) + if buckets[n].ts >= cutoff then Part(buckets[n], hit) else 0
  }

  // ---- the log ----

  /** How many hits, or misses, since the last reset fall in a minute that starts no earlier than the cutoff. */
  function Recorded(log: seq<Event>, hit: bool, cutoff: int): nat {
    if log == [] then 0 else
      var before := log[..|log| - 1];
      match log[|log| - 1]
      case Record(time, h) => Recorded(before, hit, cutoff) + if h == hit && Minute(time) >= cutoff then 1 else 0
      case Read(_) => Recorded(before, hit, cutoff)
      case Reset(_) => 0
  }

  predicate NoneAfter(log: seq<Event>, time: int) {
    log == [] || log[|log| - 1].time <= time
  }

  predicate InOrder(log: seq<Event>) {
    log == [] ||
    var before, r := log[..|log| - 1], log[|log| - 1];
    InOrder(before) && NoneAfter(before, r.time)
  }

  // ---- the buckets agree with the log ----

  lemma {:induction false} SumAfterEvict(buckets: seq<Bucket>, hit: bool, early: int, late: int)
    requires early <= late
    ensures Sum(Evict(buckets, early), hit, late) == Sum(buckets, hit, late)
    decreases |buckets|
  {
    if buckets != [] {
      var n := |buckets| - 1;
      SumAfterEvict(buckets[..n], hit, early, late);
      SumSnoc(Evict(buckets[..n], early), buckets[n], hit, late);
    }
  }

  lemma SumSnoc(buckets: seq<Bucket>, b: Bucket, hit: bool, cutoff: int)
    ensures Sum(buckets + [b], hit, cutoff) == Sum(buckets, hit, cutoff) + if b.ts >= cutoff then Part(b, hit) else 0
  {
    assert (buckets + [b])[..|buckets|] == buckets;
  }

  lemma {:induction false} SumAfterUpdate(buckets: seq<Bucket>, i: nat, b: Bucket, hit: bool, cutoff: int)
    requires i < |buckets| && b.ts == buckets[i].ts
    ensures Sum(buckets[i := b], hit, cutoff) ==
            Sum(buckets, hit, cutoff) + if b.ts >= cutoff then Part(b, hit) - Part(buckets[i], hit) else 0
    decreases |buckets|
  {
    var n := |buckets| - 1;
    if i < n {
      SumAfterUpdate(buckets[..n], i, b, hit, cutoff);
      assert buckets[i := b][..n] == buckets[..n][i := b];
    } else {
      assert buckets[i := b][..n] == buckets[..n];
    }
  }

  lemma SumAfterBump(buckets: seq<Bucket>, ts: int, h: bool, hit: bool, cutoff: int)
    ensures Sum(Bump(buckets, ts, h), hit, cutoff) ==
            Sum(buckets, hit, cutoff) + if h == hit && ts >= cutoff then 1 else 0
  {
    var i := Position(buckets, ts);
    if i < |buckets| {
      SumAfterUpdate(buckets, i, Count(buckets[i], h), hit, cutoff);
    } else {
      SumSnoc(buckets, Count(Bucket(ts, 0, 0), h), hit, cutoff);
    }
  }

  lemma RecordAdds(buckets: seq<Bucket>, time: int, h: bool, hit: bool, cutoff: int)
    requires time - WINDOW_MS <= cutoff
    ensures Sum(After(buckets, Record(time, h)), hit, cutoff) ==
            Sum(buckets, hit, cutoff) + if h == hit && Minute(time) >= cutoff then 1 else 0
  {
    SumAfterEvict(buckets, hit, time - WINDOW_MS, cutoff);
    SumAfterBump(Evict(buckets, time - WINDOW_MS), Minute(time), h, hit, cutoff);
  }

  /** From any cutoff that is no earlier than the last event's window, buckets and log agree. */
  lemma {:induction false} BucketsAgree(log: seq<Event>, hit: bool, cutoff: int)
    requires InOrder(log) && (log != [] ==> log[|log| - 1].time - WINDOW_MS <= cutoff)
    ensures Sum(Run(log), hit, cutoff) == Recorded(log, hit, cutoff)
    decreases |log|
  {
    if log != [] {
      var before, e := log[..|log| - 1], log[|log| - 1];
      BucketsAgree(before, hit, cutoff);
      match e
      case Record(time, h) => RecordAdds(Run(before), time, h, hit, cutoff);
      case Read(time) => SumAfterEvict(Run(before), hit, time - WINDOW_MS, cutoff);
      case Reset(_) =>
    }
  }

  /** Five minutes, up to the start of a minute: at most four old is counted, older than five is not. */
  lemma WindowInMinutes(time: int, now: int)
    requires time <= now
    ensures now - time <= 240000 ==> Minute(time) >= now - WINDOW_MS
    ensures now - time > 300000 ==> Minute(time) < now - WINDOW_MS
    ensures Minute(time) <= time < Minute(time) + 60000
  {
  }

  // ---- few buckets ----

  ghost predicate AllBefore(buckets: seq<Bucket>, ts: int) {
    forall i :: 0 <= i < |buckets| ==> buckets[i].ts < ts
  }

  /** Distinct times in increasing order. */
  ghost predicate Increasing(buckets: seq<Bucket>) {
    buckets == [] ||
    var n := |buckets| - 1;
    Increasing(buckets[..n]) && AllBefore(buckets[..n], buckets[n].ts)
  }

  /** All times are whole minutes. */
  ghost predicate Whole(buckets: seq<Bucket>) {
    buckets == [] || (Whole(buckets[..|buckets| - 1]) && buckets[|buckets| - 1].ts % BUCKET_MS == 0)
  }

  lemma WholeSnoc(buckets: seq<Bucket>, b: Bucket)
    requires Whole(buckets) && b.ts % BUCKET_MS == 0
    ensures Whole(buckets + [b])
  {
    assert (buckets + [b])[..|buckets|] == buckets;
  }

  lemma {:induction false} WholeAt(buckets: seq<Bucket>, i: nat)
    requires Whole(buckets) && i < |buckets|
    ensures buckets[i].ts % BUCKET_MS == 0
    decreases |buckets|
  {
    if i < |buckets| - 1 {
      WholeAt(buckets[..|buckets| - 1], i);
    }
  }

  ghost predicate NoneBefore(buckets: seq<Bucket>, from: int) {
    forall i :: 0 <= i < |buckets| ==> from <= buckets[i].ts
  }

  lemma {:induction false} EvictBounds(buckets: seq<Bucket>, cutoff: int, end: int)
    requires AllBefore(buckets, end)
    ensures AllBefore(Evict(buckets, cutoff), end) && NoneBefore(Evict(buckets, cutoff), cutoff)
    decreases |buckets|
  {
    if buckets != [] {
      EvictBounds(buckets[..|buckets| - 1], cutoff, end);
    }
  }

  lemma {:induction false} EvictKeepsWhole(buckets: seq<Bucket>, cutoff: int)
    requires Whole(buckets)
    ensures Whole(Evict(buckets, cutoff))
    decreases |buckets|
  {
    if buckets != [] {
      var n := |buckets| - 1;
      EvictKeepsWhole(buckets[..n], cutoff);
      WholeSnoc(Evict(buckets[..n], cutoff), buckets[n]);
    }
  }

  lemma IncreasingSnoc(buckets: seq<Bucket>, b: Bucket)
    requires Increasing(buckets) && AllBefore(buckets, b.ts)
    ensures Increasing(buckets + [b])
  {
    assert (buckets + [b])[..|buckets|] == buckets;
  }

  lemma {:induction false} EvictKeepsIncreasing(buckets: seq<Bucket>, cutoff: int)
    requires Increasing(buckets)
    ensures Increasing(Evict(buckets, cutoff))
    decreases |buckets|
  {
    if buckets != [] {
      var n := |buckets| - 1;
      EvictKeepsIncreasing(buckets[..n], cutoff);
      EvictBounds(buckets[..n], cutoff, buckets[n].ts);
      if buckets[n].ts >= cutoff {
        IncreasingSnoc(Evict(buckets[..n], cutoff), buckets[n]);
      }
    }
  }

  lemma {:induction false} CountKeepsIncreasing(buckets: seq<Bucket>, i: nat, b: Bucket)
    requires Increasing(buckets) && i < |buckets| && b.ts == buckets[i].ts
    ensures Increasing(buckets[i := b])
    decreases |buckets|
  {
    var n := |buckets| - 1;
    if i < n {
      CountKeepsIncreasing(buckets[..n], i, b);
      assert buckets[i := b][..n] == buckets[..n][i := b];
    } else {
      assert buckets[i := b][..n] == buckets[..n];
    }
  }

  lemma BumpKeepsIncreasing(buckets: seq<Bucket>, ts: int, hit: bool)
    requires Increasing(buckets) && AllBefore(buckets, ts + 1)
    ensures Increasing(Bump(buckets, ts, hit))
  {
    var i := Position(buckets, ts);
    if i < |buckets| {
      CountKeepsIncreasing(buckets, i, Count(buckets[i], hit));
    } else {
      PositionIsFirst(buckets, ts, 0);
      assert AllBefore(buckets, ts);
      IncreasingSnoc(buckets, Count(Bucket(ts, 0, 0), hit));
    }
  }

  lemma {:induction false} CountKeepsWhole(buckets: seq<Bucket>, i: nat, b: Bucket)
    requires Whole(buckets) && i < |buckets| && b.ts == buckets[i].ts
    ensures Whole(buckets[i := b])
    decreases |buckets|
  {
    var n := |buckets| - 1;
    if i < n {
      CountKeepsWhole(buckets[..n], i, b);
      assert buckets[i := b][..n] == buckets[..n][i := b];
    } else {
      assert buckets[i := b][..n] == buckets[..n];
    }
  }

  lemma BumpKeepsWhole(buckets: seq<Bucket>, ts: int, hit: bool)
    requires Whole(buckets) && ts % BUCKET_MS == 0
    ensures Whole(Bump(buckets, ts, hit))
  {
    var i := Position(buckets, ts);
    if i < |buckets| {
      CountKeepsWhole(buckets, i, Count(buckets[i], hit));
    } else {
      WholeSnoc(buckets, Count(Bucket(ts, 0, 0), hit));
    }
  }

  lemma NextMinute(a: int, b: int)
    requires a % BUCKET_MS == 0 && b % BUCKET_MS == 0 && a < b
    ensures a + BUCKET_MS <= b
  {
  }

  lemma {:induction false} MinutesApart(buckets: seq<Bucket>)
    requires Increasing(buckets) && Whole(buckets) && buckets != []
    ensures buckets[0].ts + BUCKET_MS * (|buckets| - 1) <= buckets[|buckets| - 1].ts
    decreases |buckets|
  {
    var n := |buckets| - 1;
    if n > 0 {
      MinutesApart(buckets[..n]);
      assert buckets[..n][n - 1].ts < buckets[n].ts;
      NextMinute(buckets[n - 1].ts, buckets[n].ts);
    }
  }

  /** Distinct minutes inside a window of five are at most six. */
  lemma AtMostSix(buckets: seq<Bucket>, now: int)
    requires Increasing(buckets) && Whole(buckets)
    requires NoneBefore(buckets, now - WINDOW_MS) && AllBefore(buckets, now + 1)
    ensures |buckets| <= 6
  {
    if buckets != [] {
      MinutesApart(buckets);
    }
  }

  lemma MinuteIs(now: int)
    ensures now - WINDOW_MS <= Minute(now) <= now && Minute(now) % BUCKET_MS == 0
  {
  }

  lemma MinuteIsLast(ts: int, now: int)
    requires ts % BUCKET_MS == 0 && ts <= now
    ensures ts <= Minute(now)
  {
  }

  /** What a record leaves: distinct minutes in order, none older than the window. */
  ghost predicate Tidy(buckets: seq<Bucket>, now: int) {
    && Increasing(buckets) && Whole(buckets)
    && NoneBefore(buckets, now - WINDOW_MS) && AllBefore(buckets, now + 1)
  }

  lemma BumpBounds(buckets: seq<Bucket>, ts: int, hit: bool, from: int, end: int)
    requires NoneBefore(buckets, from) && AllBefore(buckets, end) && from <= ts < end
    ensures NoneBefore(Bump(buckets, ts, hit), from) && AllBefore(Bump(buckets, ts, hit), end)
  {
  }

  lemma BumpIsTidy(kept: seq<Bucket>, ts: int, now: int, hit: bool)
    requires Tidy(kept, now) && AllBefore(kept, ts + 1) && now - WINDOW_MS <= ts <= now && ts % BUCKET_MS == 0
    ensures Tidy(Bump(kept, ts, hit), now)
  {
    BumpKeepsIncreasing(kept, ts, hit);
    BumpKeepsWhole(kept, ts, hit);
    BumpBounds(kept, ts, hit, now - WINDOW_MS, now + 1);
  }

  /** What is kept of older buckets is in order, inside the window, and no later than this minute. */
  lemma KeptIsTidy(buckets: seq<Bucket>, last: int, now: int)
    requires Tidy(buckets, last) && last <= now
    ensures Tidy(Evict(buckets, now - WINDOW_MS), now) && AllBefore(Evict(buckets, now - WINDOW_MS), Minute(now) + 1)
  {
    var cutoff := now - WINDOW_MS;
    EvictKeepsIncreasing(buckets, cutoff);
    EvictKeepsWhole(buckets, cutoff);
    EvictBounds(buckets, cutoff, now + 1);
    AllByTheMinute(Evict(buckets, cutoff), now);
  }

  lemma AllByTheMinute(buckets: seq<Bucket>, now: int)
    requires Whole(buckets) && AllBefore(buckets, now + 1)
    ensures AllBefore(buckets, Minute(now) + 1)
  {
    forall i | 0 <= i < |buckets| ensures buckets[i].ts <= Minute(now) {
      WholeAt(buckets, i);
      MinuteIsLast(buckets[i].ts, now);
    }
  }

  lemma {:induction false} RunIsTidy(log: seq<Event>)
    requires InOrder(log) && log != []
    ensures Tidy(Run(log), log[|log| - 1].time)
    decreases |log|
  {
    var before, r := log[..|log| - 1], log[|log| - 1];
    var buckets := Run(before);
    if before == [] {
      KeptIsTidy(buckets, r.time, r.time);
    } else {
      RunIsTidy(before);
      KeptIsTidy(buckets, before[|before| - 1].time, r.time);
    }
    if r.Record? {
      MinuteIs(r.time);
      BumpIsTidy(Evict(buckets, r.time - WINDOW_MS), Minute(r.time), r.time, r.hit);
    }
  }

  /** At any time there are at most six buckets, all of different minutes. */
  lemma FewBuckets(log: seq<Event>)
    requires InOrder(log)
    ensures |Run(log)| <= 6 && Increasing(Run(log)) && Whole(Run(log))
  {
    if log != [] {
      RunIsTidy(log);
      AtMostSix(Run(log), log[|log| - 1].time);
    }
  }

  // ---- the rate ----

  function Rate(hits: nat, total: nat): real {
    if total > 0 then hits as real / total as real * 100.0 else 0.0
  }

  function RateOf(buckets: seq<Bucket>, cutoff: int): real {
    Rate(Sum(buckets, true, cutoff), Sum(buckets, true, cutoff) + Sum(buckets, false, cutoff))
  }

  ghost predicate IsPercentage(rate: real, part: nat, whole: nat) {
    0.0 <= rate <= 100.0 && rate * whole as real == 100.0 * part as real && (whole == 0 ==> rate == 0.0)
  }

  /**
   The rate read at `now` is the percentage of hits among the records whose minute starts within the last
   five minutes, and zero if there is none.
   */
  lemma RateIsOfTheLog(log: seq<Event>, now: int)
    requires InOrder(log) && (log != [] ==> log[|log| - 1].time <= now)
    ensures var rate := RateOf(Evict(Run(log), now - WINDOW_MS), now - WINDOW_MS);
            var hits, misses := Recorded(log, true, now - WINDOW_MS), Recorded(log, false, now - WINDOW_MS);
            IsPercentage(rate, hits, hits + misses)
  {
    var cutoff := now - WINDOW_MS;
    BucketsAgree(log, true, cutoff);
    BucketsAgree(log, false, cutoff);
    SumAfterEvict(Run(log), true, cutoff, cutoff);
    SumAfterEvict(Run(log), false, cutoff, cutoff);
    RateIsAPercentage(Recorded(log, true, cutoff), Recorded(log, false, cutoff));
  }

  lemma RateIsAPercentage(hits: nat, misses: nat)
    ensures IsPercentage(Rate(hits, hits + misses), hits, hits + misses)
  {
    var total := hits + misses;
    if total > 0 {
      var share := hits as real / total as real;
      assert share * total as real == hits as real;
      assert 0.0 <= share <= 1.0;
    }
  }

  // ---- the class ----

  /** Adds up the hits, or the misses, of all buckets; none is older than the cutoff. */
  method Reduce(buckets: seq<Bucket>, hit: bool, ghost cutoff: int) returns (sum: nat)
    requires forall i :: 0 <= i < |buckets| ==> buckets[i].ts >= cutoff
    ensures sum == Sum(buckets, hit, cutoff)
  {
    sum := 0;
    for i := 0 to |buckets|
      invariant sum == Sum(buckets[..i], hit, cutoff)
    {
      assert buckets[..i + 1] == buckets[..i] + [buckets[i]];
      SumSnoc(buckets[..i], buckets[i], hit, cutoff);
      sum := sum + Part(buckets[i], hit);
    }
    assert buckets[..|buckets|] == buckets;
  }

  class CacheMetricsTracker {
    var buckets: seq<Bucket>

    constructor ()
      ensures buckets == []
    {
      buckets := [];
    }

    method EvictExpired(now: int)
      modifies this
      ensures buckets == Evict(old(buckets), now - WINDOW_MS)
    {
      buckets := Evict(buckets, now - WINDOW_MS);
    }

    /** The position of the bucket of this minute, which is added if need be. */
    method CurrentBucket(now: int) returns (i: nat)
      modifies this
      ensures i < |buckets| && i == Position(old(buckets), Minute(now)) && buckets[i].ts == Minute(now)
      ensures buckets == if i < |old(buckets)| then old(buckets) else old(buckets) + [Bucket(Minute(now), 0, 0)]
    {
      var bucketTs := (now / BUCKET_MS) * BUCKET_MS;
      i := Position(buckets, bucketTs);
      if i == |buckets| {
        buckets := buckets + [Bucket(bucketTs, 0, 0)];
      }
    }

    method RecordHit(now: int)
      modifies this
      ensures buckets == After(old(buckets), Record(now, true))
    {
      EvictExpired(now);
      var i := CurrentBucket(now);
      buckets := buckets[i := buckets[i].(hits := buckets[i].hits + 1)];
    }

    method RecordMiss(now: int)
      modifies this
      ensures buckets == After(old(buckets), Record(now, false))
    {
      EvictExpired(now);
      var i := CurrentBucket(now);
      buckets := buckets[i := buckets[i].(misses := buckets[i].misses + 1)];
    }

    method GetHitRate(now: int) returns (rate: real)
      modifies this
      ensures buckets == After(old(buckets), Read(now))
      ensures rate == RateOf(buckets, now - WINDOW_MS)
    {
      EvictExpired(now);
      EvictKeepsOnly(old(buckets), now - WINDOW_MS);
      var hits := Reduce(buckets, true, now - WINDOW_MS);
      var misses := Reduce(buckets, false, now - WINDOW_MS);
      rate := Rate(hits, hits + misses);
    }

    method Reset(ghost now: int)
      modifies this
      ensures buckets == After(old(buckets), Event.Reset(now))
    {
      buckets := [];
    }
  }

  lemma {:induction false} EvictKeepsOnly(buckets: seq<Bucket>, cutoff: int)
    ensures forall i :: 0 <= i < |Evict(buckets, cutoff)| ==> Evict(buckets, cutoff)[i].ts >= cutoff
    decreases |buckets|
  {
    if buckets != [] {
      EvictKeepsOnly(buckets[..|buckets| - 1], cutoff);
    }
  }
}
