/**
 The sliding-window rate limiter: the Lua script of packages/cache/src/rate-limiter-core.ts and the
 EVAL of the in-memory client in packages/cache/src/mock.ts, against a log of admitted requests.

 Times are milliseconds.  A request carries the time its sender read (`now`, which the script uses for
 scores and for the window) and the time at which the server runs the script (`server`, which the
 key's expiry uses).
 */
module SlidingWindow {

  datatype Request = Request(now: int, server: int)

  datatype Config = Config(points: nat, durationMs: nat)

  /** The sorted set as the list of its scores, with the second at which the key expires. */
  datatype ZSet = ZSet(scores: seq<int>, deadline: int)

  // ---- the two scripts ----

  /** ZREMRANGEBYSCORE key -inf start: what is left. */
  function After(scores: seq<int>, start: int): (r: seq<int>)
    ensures |r| <= |scores|
  {
    if scores == [] then [] else
      var rest := After(scores[..|scores| - 1], start);
      if scores[|scores| - 1] > start then rest + [scores[|scores| - 1]] else rest
  }

  function MockScores(c: Config, scores: seq<int>, now: int): seq<int> {
    var kept := After(scores, now - c.durationMs);
    if |kept| < c.points then kept + [now] else kept
  }

  predicate MockAllows(c: Config, scores: seq<int>, now: int) {
    |After(scores, now - c.durationMs)| < c.points
  }

  /** What the script finds at the key: nothing, once it has expired. */
  function Found(z: ZSet, server: int): seq<int> {
    if server < z.deadline then z.scores else []
  }

  function LuaSet(c: Config, z: ZSet, r: Request): ZSet {
    ZSet(MockScores(c, Found(z, r.server), r.now),
         if MockAllows(c, Found(z, r.server), r.now) then r.server + c.durationMs else z.deadline)
  }

  predicate LuaAllows(c: Config, z: ZSet, r: Request) {
    MockAllows(c, Found(z, r.server), r.now)
  }

  function MockRun(c: Config, times: seq<int>): seq<int> {
    if times == [] then [] else MockScores(c, MockRun(c, times[..|times| - 1]), times[|times| - 1])
  }

  function LuaRun(c: Config, requests: seq<Request>): ZSet {
    if requests == [] then ZSet([], 0)
    else LuaSet(c, LuaRun(c, requests[..|requests| - 1]), requests[|requests| - 1])
  }

  // ---- the log ----

  /** How many entries of the log lie in (lo, hi]. */
  function CountIn(log: seq<int>, lo: int, hi: int): (n: nat)
    ensures n <= |log|
  {
    if log == [] then 0 else
      CountIn(log[..|log| - 1], lo, hi) + if lo < log[|log| - 1] <= hi then 1 else 0
  }

  /** Fewer than `points` requests were admitted in the last `durationMs`. */
  predicate HasRoom(c: Config, log: seq<int>, now: int) {
    CountIn(log, now - c.durationMs, now) < c.points
  }

  /** The log after one more request. */
  function Logged(c: Config, log: seq<int>, now: int): seq<int> {
    if HasRoom(c, log, now) then log + [now] else log
  }

  /** The times of the requests that a limiter with a perfect memory admits. */
  function Admitted(c: Config, times: seq<int>): (log: seq<int>)
    ensures |log| <= |times|
  {
    if times == [] then [] else
      Logged(c, Admitted(c, times[..|times| - 1]), times[|times| - 1])
  }

  predicate AtMost(times: seq<int>, bound: int) {
    forall i :: 0 <= i < |times| ==> times[i] <= bound
  }

  /** No time is earlier than one before it. */
  predicate InOrder(times: seq<int>) {
    times == [] ||
    var before, now := times[..|times| - 1], times[|times| - 1];
    InOrder(before) && (before == [] || before[|before| - 1] <= now)
  }

  lemma {:induction false} LastIsLatest(times: seq<int>, bound: int)
    requires InOrder(times) && (times == [] || times[|times| - 1] <= bound)
    ensures AtMost(times, bound)
    decreases |times|
  {
    if times != [] {
      LastIsLatest(times[..|times| - 1], bound);
    }
  }

  lemma LaterKeepsOrder(log: seq<int>, now: int, bound: int)
    requires InOrder(log) && AtMost(log, now) && now <= bound
    ensures InOrder(log + [now]) && AtMost(log + [now], bound) && AtMost(log, bound)
  {
    assert (log + [now])[..|log|] == log;
  }

  lemma {:induction false} AdmittedInOrder(c: Config, times: seq<int>, bound: int)
    requires InOrder(times) && AtMost(times, bound)
    ensures InOrder(Admitted(c, times)) && AtMost(Admitted(c, times), bound)
    decreases |times|
  {
    if times != [] {
      var before, now := Cut(times);
      AdmittedInOrder(c, before, now);
      LaterKeepsOrder(Admitted(c, before), now, bound);
    }
  }

  // ---- the scripts agree with the log ----

  lemma {:induction false} AfterTwice(scores: seq<int>, early: int, late: int)
    requires early <= late
    ensures After(After(scores, early), late) == After(scores, late)
    decreases |scores|
  {
    if scores != [] {
      var n := |scores| - 1;
      AfterTwice(scores[..n], early, late);
    }
  }

  lemma {:induction false} AfterCounts(scores: seq<int>, start: int, now: int)
    requires AtMost(scores, now)
    ensures |After(scores, start)| == CountIn(scores, start, now)
    decreases |scores|
  {
    if scores != [] {
      AfterCounts(scores[..|scores| - 1], start, now);
    }
  }

  /** The script decides from its scores what the log says, if the two agree on the last window. */
  lemma MockDecides(c: Config, scores: seq<int>, log: seq<int>, now: int)
    requires AtMost(log, now)
    requires After(scores, now - c.durationMs) == After(log, now - c.durationMs)
    ensures MockAllows(c, scores, now) <==> HasRoom(c, log, now)
  {
    AfterCounts(log, now - c.durationMs, now);
  }

  lemma StepKeepsWindow(c: Config, scores: seq<int>, log: seq<int>, now: int, start: int)
    requires AtMost(log, now) && now - c.durationMs <= start
    requires After(scores, now - c.durationMs) == After(log, now - c.durationMs)
    requires After(scores, start) == After(log, start)
    ensures After(MockScores(c, scores, now), start) == After(Logged(c, log, now), start)
  {
    MockDecides(c, scores, log, now);
    AfterTwice(scores, now - c.durationMs, start);
  }

  /** After any start no earlier than its last window, the script still has what the log has. */
  lemma {:induction false} MockKeepsWindow(c: Config, times: seq<int>, start: int)
    requires InOrder(times) && (times != [] ==> times[|times| - 1] - c.durationMs <= start)
    ensures After(MockRun(c, times), start) == After(Admitted(c, times), start)
    decreases |times|
  {
    if times != [] {
      var before, now := Cut(times);
      MockKeepsWindow(c, before, now - c.durationMs);
      MockKeepsWindow(c, before, start);
      AdmittedInOrder(c, before, now);
      StepKeepsWindow(c, MockRun(c, before), Admitted(c, before), now, start);
    }
  }

  lemma Cut(times: seq<int>) returns (before: seq<int>, now: int)
    requires InOrder(times) && times != []
    ensures before == times[..|times| - 1] && now == times[|times| - 1]
    ensures InOrder(before) && AtMost(before, now)
  {
    before, now := times[..|times| - 1], times[|times| - 1];
    LastIsLatest(before, now);
  }

  /** A request is allowed if and only if fewer than `points` were admitted in the last window. */
  lemma SlidingWindowIsExact(c: Config, before: seq<int>, now: int)
    requires InOrder(before) && AtMost(before, now)
    ensures MockAllows(c, MockRun(c, before), now) <==> HasRoom(c, Admitted(c, before), now)
  {
    MockKeepsWindow(c, before, now - c.durationMs);
    AdmittedInOrder(c, before, now);
    MockDecides(c, MockRun(c, before), Admitted(c, before), now);
  }

  // ---- no window is ever overfull ----

  lemma {:induction false} NarrowerCountsLess(log: seq<int>, lo: int, hi: int, lo2: int, hi2: int)
    requires AtMost(log, hi2) && lo2 <= lo
    ensures CountIn(log, lo, hi) <= CountIn(log, lo2, hi2)
    decreases |log|
  {
    if log != [] {
      NarrowerCountsLess(log[..|log| - 1], lo, hi, lo2, hi2);
    }
  }

  lemma LoggedNotOverfull(c: Config, log: seq<int>, now: int, end: int)
    requires AtMost(log, now) && CountIn(log, end - c.durationMs, end) <= c.points
    ensures CountIn(Logged(c, log, now), end - c.durationMs, end) <= c.points
  {
    assert (log + [now])[..|log|] == log;
    if end - c.durationMs < now <= end {
      NarrowerCountsLess(log, end - c.durationMs, end, now - c.durationMs, now);
    }
  }

  /** No window of the configured length, wherever it ends, holds more than `points` admitted requests. */
  lemma {:induction false} NoWindowOverfull(c: Config, times: seq<int>, end: int)
    requires InOrder(times)
    ensures CountIn(Admitted(c, times), end - c.durationMs, end) <= c.points
    decreases |times|
  {
    if times != [] {
      var before, now := Cut(times);
      NoWindowOverfull(c, before, end);
      AdmittedInOrder(c, before, now);
      LoggedNotOverfull(c, Admitted(c, before), now, end);
    }
  }

  // ---- expiring the key ----

  function Times(requests: seq<Request>): (r: seq<int>)
    ensures |r| == |requests| && forall i :: 0 <= i < |r| ==> r[i] == requests[i].now
  {
    seq(|requests|, i requires 0 <= i < |requests| => requests[i].now)
  }

  function Lag(r: Request): int {
    r.server - r.now
  }

  /** No later request takes longer to reach the server than an earlier one. */
  predicate Steady(requests: seq<Request>) {
    requests == [] ||
    var before, r := requests[..|requests| - 1], requests[|requests| - 1];
    Steady(before) && (before == [] || Lag(r) <= Lag(before[|before| - 1]))
  }

  /** Whenever the key has expired, everything the script had stored is out of the window anyway. */
  ghost predicate ExpiresLate(c: Config, z: ZSet, lag: int) {
    forall i :: 0 <= i < |z.scores| ==> z.scores[i] + lag + c.durationMs <= z.deadline
  }

  lemma {:induction false} NothingAfter(scores: seq<int>, start: int)
    requires AtMost(scores, start)
    ensures After(scores, start) == []
    decreases |scores|
  {
    if scores != [] {
      NothingAfter(scores[..|scores| - 1], start);
    }
  }

  lemma {:induction false} AfterKeepsLate(c: Config, z: ZSet, lag: int, start: int)
    requires ExpiresLate(c, z, lag)
    ensures ExpiresLate(c, ZSet(After(z.scores, start), z.deadline), lag)
    decreases |z.scores|
  {
    if z.scores != [] {
      AfterKeepsLate(c, ZSet(z.scores[..|z.scores| - 1], z.deadline), lag, start);
    }
  }

  lemma FoundAfter(c: Config, z: ZSet, r: Request)
    requires ExpiresLate(c, z, r.server - r.now)
    ensures After(Found(z, r.server), r.now - c.durationMs) == After(z.scores, r.now - c.durationMs)
  {
    if z.deadline <= r.server {
      NothingAfter(z.scores, r.now - c.durationMs);
    }
  }

  lemma {:induction false} AfterAtMost(scores: seq<int>, start: int, bound: int)
    requires AtMost(scores, bound)
    ensures AtMost(After(scores, start), bound)
    decreases |scores|
  {
    if scores != [] {
      AfterAtMost(scores[..|scores| - 1], start, bound);
    }
  }

  lemma {:induction false} MockAtMost(c: Config, times: seq<int>, bound: int)
    requires AtMost(times, bound)
    ensures AtMost(MockRun(c, times), bound)
    decreases |times|
  {
    if times != [] {
      var n := |times| - 1;
      MockAtMost(c, times[..n], bound);
      AfterAtMost(MockRun(c, times[..n]), times[n] - c.durationMs, bound);
    }
  }

  lemma LuaDecides(c: Config, z: ZSet, r: Request)
    requires ExpiresLate(c, z, r.server - r.now)
    ensures LuaAllows(c, z, r) <==> MockAllows(c, z.scores, r.now)
    ensures LuaSet(c, z, r).scores == MockScores(c, z.scores, r.now)
  {
    FoundAfter(c, z, r);
  }

  lemma LuaStepExpiresLate(c: Config, z: ZSet, r: Request)
    requires ExpiresLate(c, z, r.server - r.now) && AtMost(z.scores, r.now)
    ensures ExpiresLate(c, LuaSet(c, z, r), r.server - r.now)
  {
    var lag := r.server - r.now;
    FoundAfter(c, z, r);
    AfterKeepsLate(c, z, lag, r.now - c.durationMs);
    AfterAtMost(z.scores, r.now - c.durationMs, r.now);
  }

  lemma EarlierRequests(requests: seq<Request>) returns (before: seq<Request>, r: Request)
    requires InOrder(Times(requests)) && Steady(requests) && requests != []
    ensures before == requests[..|requests| - 1] && r == requests[|requests| - 1]
    ensures InOrder(Times(before)) && Steady(before) && AtMost(Times(before), r.now)
    ensures Times(before) == Times(requests)[..|requests| - 1] && r.now == Times(requests)[|requests| - 1]
    ensures before != [] ==> r.server - r.now <= before[|before| - 1].server - before[|before| - 1].now
  {
    before, r := requests[..|requests| - 1], requests[|requests| - 1];
    assert Times(before) == Times(requests)[..|requests| - 1];
    LastIsLatest(Times(before), r.now);
  }

  /** The expiring key holds what the key that never expires holds. */
  lemma {:induction false} LuaKeepsScores(c: Config, requests: seq<Request>)
    requires InOrder(Times(requests)) && Steady(requests)
    ensures LuaRun(c, requests).scores == MockRun(c, Times(requests))
    ensures requests != [] ==>
              var last := requests[|requests| - 1]; ExpiresLate(c, LuaRun(c, requests), last.server - last.now)
    decreases |requests|
  {
    if requests != [] {
      var before, r := EarlierRequests(requests);
      LuaKeepsScores(c, before);
      MockAtMost(c, Times(before), r.now);
      LuaLastRequest(c, LuaRun(c, before), before, r);
    }
  }

  lemma LuaLastRequest(c: Config, z: ZSet, before: seq<Request>, r: Request)
    requires AtMost(z.scores, r.now)
    requires before == [] ==> z.scores == []
    requires before != [] ==>
               var last := before[|before| - 1];
               r.server - r.now <= last.server - last.now && ExpiresLate(c, z, last.server - last.now)
    ensures LuaSet(c, z, r).scores == MockScores(c, z.scores, r.now)
    ensures ExpiresLate(c, LuaSet(c, z, r), r.server - r.now)
  {
    LuaDecides(c, z, r);
    LuaStepExpiresLate(c, z, r);
  }

  /** Expiring the key never changes a decision: at the last request, the script and the in-memory client agree. */
  lemma LuaAgreesWithMock(c: Config, requests: seq<Request>)
    requires requests != [] && InOrder(Times(requests)) && Steady(requests)
    ensures var before, r := requests[..|requests| - 1], requests[|requests| - 1];
            LuaAllows(c, LuaRun(c, before), r) <==> MockAllows(c, MockRun(c, Times(before)), r.now)
  {
    var before, r := EarlierRequests(requests);
    LuaKeepsScores(c, before);
    LuaDecides(c, LuaRun(c, before), r);
  }

  /** What the script itself admits. */
  function LuaAdmitted(c: Config, requests: seq<Request>): seq<int> {
    if requests == [] then [] else
      var before, r := requests[..|requests| - 1], requests[|requests| - 1];
      LuaAdmitted(c, before) + if LuaAllows(c, LuaRun(c, before), r) then [r.now] else []
  }

  // ---- exactly when expiring the key never changes a decision ----

  /** At one request, the expiring key decides otherwise exactly if it has expired under a full window. */
  lemma ExpiryMattersIff(c: Config, z: ZSet, r: Request)
    ensures (LuaAllows(c, z, r) <==> MockAllows(c, z.scores, r.now)) <==>
            !(z.deadline <= r.server && 0 < c.points <= |After(z.scores, r.now - c.durationMs)|)
  {
  }

  function Servers(requests: seq<Request>): (r: seq<int>)
    ensures |r| == |requests| && forall i :: 0 <= i < |r| ==> r[i] == requests[i].server
  {
    seq(|requests|, i requires 0 <= i < |requests| => requests[i].server)
  }

  /** No request takes more than `growth` longer to reach the server than an earlier one. */
  ghost predicate LagGrowsAtMost(requests: seq<Request>, growth: nat) {
    forall i, j :: 0 <= i < j < |requests| ==> Lag(requests[j]) <= Lag(requests[i]) + growth
  }

  /** A run of the script: both clocks move forward, and the lag grows by no more than `growth`. */
  ghost predicate IsRun(requests: seq<Request>, growth: nat) {
    InOrder(Times(requests)) && InOrder(Servers(requests)) && LagGrowsAtMost(requests, growth)
  }

  /** At its last request the script and the client that never expires the key decide the same. */
  predicate Agree(c: Config, requests: seq<Request>)
    requires requests != []
  {
    var before, r := requests[..|requests| - 1], requests[|requests| - 1];
    LuaAllows(c, LuaRun(c, before), r) <==> MockAllows(c, MockRun(c, Times(before)), r.now)
  }

  ghost predicate AlwaysAgree(c: Config, growth: nat) {
    forall requests :: requests != [] && IsRun(requests, growth) ==> Agree(c, requests)
  }

  lemma {:induction false} NoGrowthIsSteady(requests: seq<Request>)
    requires LagGrowsAtMost(requests, 0)
    ensures Steady(requests)
    decreases |requests|
  {
    if requests != [] {
      var before, r := requests[..|requests| - 1], requests[|requests| - 1];
      NoGrowthIsSteady(before);
      assert before != [] ==> Lag(r) <= Lag(requests[|before| - 1]);
    }
  }

  /** A window of length zero holds nothing, expired or not. */
  lemma {:induction false} NoWindow(c: Config, requests: seq<Request>)
    requires c.durationMs == 0 && requests != [] && InOrder(Times(requests))
    ensures Agree(c, requests)
  {
    var before, r := requests[..|requests| - 1], requests[|requests| - 1];
    assert Times(before) == Times(requests)[..|requests| - 1];
    LastIsLatest(Times(before), r.now);
    MockAtMost(c, Times(before), r.now);
    LuaAtMost(c, before, r.now);
    NothingAfter(MockRun(c, Times(before)), r.now);
    NothingAfter(Found(LuaRun(c, before), r.server), r.now);
  }

  lemma {:induction false} LuaAtMost(c: Config, requests: seq<Request>, bound: int)
    requires AtMost(Times(requests), bound)
    ensures AtMost(LuaRun(c, requests).scores, bound)
    decreases |requests|
  {
    if requests != [] {
      var n := |requests| - 1;
      assert Times(requests[..n]) == Times(requests)[..n];
      assert requests[n].now == Times(requests)[n];
      LuaAtMost(c, requests[..n], bound);
      AfterAtMost(Found(LuaRun(c, requests[..n]), requests[n].server), requests[n].now - c.durationMs, bound);
    }
  }

  /** `k` requests at time zero that take no time to arrive. */
  function Burst(k: nat): (r: seq<Request>)
    ensures |r| == k && forall i :: 0 <= i < k ==> r[i] == Request(0, 0)
  {
    seq(k, i => Request(0, 0))
  }

  function Zeros(k: nat): (r: seq<int>)
    ensures |r| == k && forall i :: 0 <= i < k ==> r[i] == 0
  {
    seq(k, i => 0)
  }

  lemma {:induction false} ZerosStay(k: nat, start: int)
    requires start < 0
    ensures After(Zeros(k), start) == Zeros(k)
  {
    if k > 0 {
      assert Zeros(k)[..k - 1] == Zeros(k - 1);
      ZerosStay(k - 1, start);
      assert Zeros(k - 1) + [0] == Zeros(k);
    }
  }

  lemma OneMoreZero(c: Config, k: nat)
    requires k < c.points && c.durationMs > 0
    ensures MockAllows(c, Zeros(k), 0) && MockScores(c, Zeros(k), 0) == Zeros(k + 1)
  {
    ZerosStay(k, 0 - c.durationMs);
    assert Zeros(k) + [0] == Zeros(k + 1);
  }

  lemma {:induction false} BurstIsKept(c: Config, k: nat)
    requires k <= c.points && c.durationMs > 0
    ensures MockRun(c, Zeros(k)) == Zeros(k)
  {
    if k > 0 {
      assert Zeros(k)[..k - 1] == Zeros(k - 1);
      BurstIsKept(c, k - 1);
      OneMoreZero(c, k - 1);
    }
  }

  /** Requests at time zero that take no time to arrive. */
  predicate AtOnce(requests: seq<Request>) {
    forall i :: 0 <= i < |requests| ==> requests[i] == Request(0, 0)
  }

  lemma {:induction false} BurstFills(c: Config, requests: seq<Request>)
    requires AtOnce(requests) && |requests| <= c.points && c.durationMs > 0
    ensures LuaRun(c, requests) == ZSet(Zeros(|requests|), if requests == [] then 0 else c.durationMs)
    decreases |requests|
  {
    if requests != [] {
      var k := |requests| - 1;
      BurstFills(c, requests[..k]);
      OneMoreZero(c, k);
    }
  }

  lemma OneMoreAdmitted(c: Config, before: seq<Request>, late: Request)
    requires LuaAllows(c, LuaRun(c, before), late)
    ensures LuaAdmitted(c, before + [late]) == LuaAdmitted(c, before) + [late.now]
  {
    assert (before + [late])[..|before|] == before;
  }

  lemma {:induction false} BurstIsAdmitted(c: Config, requests: seq<Request>)
    requires AtOnce(requests) && |requests| <= c.points && c.durationMs > 0
    ensures LuaAdmitted(c, requests) == Zeros(|requests|)
    decreases |requests|
  {
    if requests != [] {
      var k := |requests| - 1;
      BurstIsAdmitted(c, requests[..k]);
      BurstFills(c, requests[..k]);
      OneMoreZero(c, k);
      assert Zeros(k) + [0] == Zeros(k + 1);
    }
  }

  /** A full window. */
  ghost predicate Full(c: Config, before: seq<Request>) {
    && before == Burst(c.points)
    && LuaRun(c, before) == ZSet(Zeros(c.points), c.durationMs) && MockRun(c, Times(before)) == Zeros(c.points)
    && LuaAdmitted(c, before) == Zeros(c.points)
  }

  lemma FullWindow(c: Config) returns (before: seq<Request>)
    requires c.points > 0 && c.durationMs > 0
    ensures Full(c, before)
  {
    before := Burst(c.points);
    BurstFills(c, before);
    BurstIsKept(c, c.points);
    BurstIsAdmitted(c, before);
    assert Times(before) == Zeros(c.points);
  }

  /** A request from inside the window that reaches the server when the key has just expired. */
  function Late(c: Config): Request {
    Request(c.durationMs - 1, c.durationMs)
  }

  lemma LateIsRun(c: Config, before: seq<Request>, growth: nat)
    requires c.durationMs > 0 && growth > 0 && before == Burst(c.points)
    ensures IsRun(before + [Late(c)], growth)
  {
    RisesOnce(Times(before + [Late(c)]));
    RisesOnce(Servers(before + [Late(c)]));
  }

  lemma RisesOnce(times: seq<int>)
    requires times != [] && forall i :: 0 <= i < |times| - 1 ==> times[i] == 0 <= times[|times| - 1]
    ensures InOrder(times)
  {
    var n := |times| - 1;
    assert times[..n] == Zeros(n);
    ZerosInOrder(n);
  }

  lemma {:induction false} ZerosInOrder(k: nat)
    ensures InOrder(Zeros(k))
  {
    if k > 0 {
      assert Zeros(k)[..k - 1] == Zeros(k - 1);
      ZerosInOrder(k - 1);
    }
  }

  lemma LateDecisions(c: Config)
    requires c.points > 0 && c.durationMs > 0
    ensures LuaAllows(c, ZSet(Zeros(c.points), c.durationMs), Late(c))
    ensures !MockAllows(c, Zeros(c.points), Late(c).now)
  {
    ZerosStay(c.points, -1);
    NothingAfter([], -1);
  }

  /** The script admits one request more than `points` in the window, whatever the limit. */
  lemma SlowRequestSlipsThrough(c: Config, growth: nat) returns (before: seq<Request>)
    requires c.points > 0 && c.durationMs > 0 && growth > 0
    ensures LuaAdmitted(c, before) == Zeros(c.points)
    ensures LuaAllows(c, LuaRun(c, before), Late(c)) && !MockAllows(c, MockRun(c, Times(before)), Late(c).now)
    ensures IsRun(before + [Late(c)], growth) && !Agree(c, before + [Late(c)])
  {
    before := FullWindow(c);
    LateDecisions(c);
    LastDisagrees(c, before, Late(c));
    LateIsRun(c, before, growth);
  }

  lemma LastDisagrees(c: Config, before: seq<Request>, late: Request)
    requires LuaAllows(c, LuaRun(c, before), late) && !MockAllows(c, MockRun(c, Times(before)), late.now)
    ensures !Agree(c, before + [late])
  {
    assert (before + [late])[..|before|] == before;
  }

  /**
   Expiring the key changes no decision in any run whose lag grows by at most `growth`, if and only if
   the lag does not grow, or the limit is zero, or the window has no length.
   */
  lemma AlwaysAgreeIff(c: Config, growth: nat)
    ensures AlwaysAgree(c, growth) <==> growth == 0 || c.points == 0 || c.durationMs == 0
  {
    if growth > 0 && c.points > 0 && c.durationMs > 0 {
      var before := SlowRequestSlipsThrough(c, growth);
    } else {
      forall requests | requests != [] && IsRun(requests, growth) ensures Agree(c, requests) {
        RunAgrees(c, requests, growth);
      }
    }
  }

  lemma RunAgrees(c: Config, requests: seq<Request>, growth: nat)
    requires growth == 0 || c.points == 0 || c.durationMs == 0
    requires requests != [] && IsRun(requests, growth)
    ensures Agree(c, requests)
  {
    if c.durationMs == 0 {
      NoWindow(c, requests);
    } else if c.points > 0 {
      NoGrowthIsSteady(requests);
      LuaAgreesWithMock(c, requests);
    }
  }

  // ---- what the script itself admits ----

  /** As long as the lag does not grow, the script decides its last request as the log does. */
  lemma LuaIsExact(c: Config, requests: seq<Request>)
    requires requests != [] && InOrder(Times(requests)) && Steady(requests)
    ensures var before, r := requests[..|requests| - 1], requests[|requests| - 1];
            LuaAllows(c, LuaRun(c, before), r) <==> HasRoom(c, Admitted(c, Times(before)), r.now)
  {
    var before, r := EarlierRequests(requests);
    LuaAgreesWithMock(c, requests);
    SlidingWindowIsExact(c, Times(before), r.now);
  }

  /** So it admits what a limiter with a perfect memory admits. */
  lemma {:induction false} LuaAdmitsTheLog(c: Config, requests: seq<Request>)
    requires InOrder(Times(requests)) && Steady(requests)
    ensures LuaAdmitted(c, requests) == Admitted(c, Times(requests))
    decreases |requests|
  {
    if requests != [] {
      var before, r := requests[..|requests| - 1], requests[|requests| - 1];
      assert LuaAdmitted(c, before) == Admitted(c, Times(before)) by {
        var b, x := EarlierRequests(requests);
        LuaAdmitsTheLog(c, before);
      }
      assert LuaAllows(c, LuaRun(c, before), r) <==> HasRoom(c, Admitted(c, Times(before)), r.now) by {
        LuaIsExact(c, requests);
      }
      OneMoreOfBoth(c, requests);
    }
  }

  lemma OneMoreOfBoth(c: Config, requests: seq<Request>)
    requires requests != []
    requires var before, r := requests[..|requests| - 1], requests[|requests| - 1];
             && LuaAdmitted(c, before) == Admitted(c, Times(before))
             && (LuaAllows(c, LuaRun(c, before), r) <==> HasRoom(c, Admitted(c, Times(before)), r.now))
    ensures LuaAdmitted(c, requests) == Admitted(c, Times(requests))
  {
    assert Times(requests)[..|requests| - 1] == Times(requests[..|requests| - 1]);
  }

  /** The window that ends at `end` holds no more than `points` requests of the log. */
  predicate Within(c: Config, log: seq<int>, end: int) {
    CountIn(log, end - c.durationMs, end) <= c.points
  }

  /** No window, wherever it ends, holds more than `points` requests that the script admitted. */
  lemma NoLuaWindowOverfull(c: Config, requests: seq<Request>, end: int)
    requires InOrder(Times(requests)) && Steady(requests)
    ensures Within(c, LuaAdmitted(c, requests), end)
  {
    LuaAdmitsTheLog(c, requests);
    LogWithin(c, Times(requests), end);
  }

  lemma LogWithin(c: Config, times: seq<int>, end: int)
    requires InOrder(times)
    ensures Within(c, Admitted(c, times), end)
  {
    NoWindowOverfull(c, times, end);
  }

  ghost predicate NeverOverfull(c: Config, growth: nat) {
    forall requests, end :: IsRun(requests, growth) ==> Within(c, LuaAdmitted(c, requests), end)
  }

  lemma {:induction false} SmallWindow(c: Config, log: seq<int>, end: int)
    requires c.durationMs == 0 || log == []
    ensures Within(c, log, end)
    decreases |log|
  {
    if log != [] {
      SmallWindow(c, log[..|log| - 1], end);
    }
  }

  lemma {:induction false} NothingAdmitted(c: Config, requests: seq<Request>)
    requires c.points == 0
    ensures LuaAdmitted(c, requests) == []
    decreases |requests|
  {
    if requests != [] {
      NothingAdmitted(c, requests[..|requests| - 1]);
    }
  }

  lemma {:induction false} ZerosCount(k: nat, lo: int, hi: int)
    requires lo < 0 <= hi
    ensures CountIn(Zeros(k), lo, hi) == k
  {
    if k > 0 {
      assert Zeros(k)[..k - 1] == Zeros(k - 1);
      ZerosCount(k - 1, lo, hi);
    }
  }

  lemma OneTooMany(c: Config)
    requires c.durationMs > 0
    ensures !Within(c, Zeros(c.points) + [Late(c).now], Late(c).now)
  {
    var k, end := c.points, Late(c).now;
    ZerosCount(k, -1, end);
    assert (Zeros(k) + [end])[..k] == Zeros(k);
  }

  /** A window with one admitted request too many. */
  lemma OverfullRun(c: Config, growth: nat) returns (requests: seq<Request>)
    requires c.points > 0 && c.durationMs > 0 && growth > 0
    ensures IsRun(requests, growth) && !Within(c, LuaAdmitted(c, requests), Late(c).now)
  {
    var before := SlowRequestSlipsThrough(c, growth);
    requests := before + [Late(c)];
    OneMoreAdmitted(c, before, Late(c));
    OneTooMany(c);
  }

  /**
   In every run whose lag grows by at most `growth`, no window holds more than `points` requests that
   the script admitted, if and only if the lag does not grow, or the limit is zero, or the window has no
   length.
   */
  lemma NeverOverfullIff(c: Config, growth: nat)
    ensures NeverOverfull(c, growth) <==> growth == 0 || c.points == 0 || c.durationMs == 0
  {
    if growth > 0 && c.points > 0 && c.durationMs > 0 {
      var requests := OverfullRun(c, growth);
    } else {
      forall requests, end | IsRun(requests, growth) ensures Within(c, LuaAdmitted(c, requests), end) {
        RunIsNotOverfull(c, requests, growth, end);
      }
    }
  }

  lemma RunIsNotOverfull(c: Config, requests: seq<Request>, growth: nat, end: int)
    requires growth == 0 || c.points == 0 || c.durationMs == 0
    requires IsRun(requests, growth)
    ensures Within(c, LuaAdmitted(c, requests), end)
  {
    if c.durationMs == 0 || c.points == 0 {
      if c.points == 0 {
        NothingAdmitted(c, requests);
      }
      SmallWindow(c, LuaAdmitted(c, requests), end);
    } else {
      NoGrowthIsSteady(requests);
      NoLuaWindowOverfull(c, requests, end);
    }
  }

  /** The script admits a rejected client that comes back alone after the announced time, whatever the lag. */
  lemma LuaRetryAfterSuffices(c: Config, requests: seq<Request>, retry: Request)
    requires requests != [] && InOrder(Times(requests)) && c.points > 0
    requires requests[|requests| - 1].now + c.durationMs <= retry.now
    ensures LuaAllows(c, LuaRun(c, requests), retry)
  {
    var last := requests[|requests| - 1].now;
    LastIsLatest(Times(requests), last);
    LuaAtMost(c, requests, last);
    OldScoresDoNotCount(c, LuaRun(c, requests), last, retry);
  }

  lemma OldScoresDoNotCount(c: Config, z: ZSet, last: int, retry: Request)
    requires c.points > 0 && AtMost(z.scores, last) && last + c.durationMs <= retry.now
    ensures LuaAllows(c, z, retry)
  {
    NothingAfter(Found(z, retry.server), retry.now - c.durationMs);
  }

  // ---- the limiter ----

  class SlidingWindowLimiter {
    const c: Config
    var scores: seq<int>
    var deadline: int

    constructor (c: Config)
      ensures this.c == c && scores == [] && deadline == 0
    {
      this.c, scores, deadline := c, [], 0;
    }

    /** One evaluation of the script: {1, count + 1} or {0, count}. */
    method EvalSlidingWindow(r: Request) returns (allowed: bool, count: nat)
      modifies this
      ensures ZSet(scores, deadline) == LuaSet(c, old(ZSet(scores, deadline)), r)
      ensures allowed == LuaAllows(c, old(ZSet(scores, deadline)), r)
      ensures allowed ==> 1 <= count <= c.points && count == |scores|
      ensures !allowed ==> count >= c.points && count == |scores|
    {
      if deadline <= r.server {
        scores := [];
      }
      scores := After(scores, r.now - c.durationMs);
      count := |scores|;
      if count < c.points {
        scores := scores + [r.now];
        deadline := r.server + c.durationMs;
        return true, count + 1;
      }
      return false, count;
    }
  }
}
