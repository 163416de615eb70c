/**
 The lock of packages/cache/src/distributed-lock.ts: SET NX PX, a token map in each process, and a
 compare-and-delete script.

 The state machine follows one key.  Every await is a step, so a call may be held up between the
 command it sends and what it does with the answer.
 */
module DistributedLock {
  import opened Wrappers

  type Process = nat
  type Token = nat
  type Call = nat

  datatype Lock = Lock(token: Token, deadline: int)

  /** `finished`: the holder has called release, or its acquire has thrown.  `released`: its lock has been deleted. */
  datatype Grant = Grant(process: Process, deadline: int, finished: bool, released: bool)

  datatype Pc =
    | Setting(process: Process, token: Token)
    | Granted(process: Process, token: Token)
    | Deleting(process: Process, token: Token)
    | Clearing(process: Process)
    | Over

  datatype State = State(
    now: int,
    lock: Option<Lock>,
    held: map<Process, Token>,
    grants: map<Token, Grant>,
    calls: map<Call, Pc>)

  /**
   `timely`: a holder calls release before its lock expires.  `serial`: a process is granted a lock, or
   calls release, only when none of its other calls is between its command and the end of it.
   `reliable`: no call fails.
   */
  datatype Env = Env(ttlMs: nat, timely: bool, serial: bool, reliable: bool)

  datatype Event =
    | Tick(ms: nat)
    | Acquire(call: Call, process: Process, token: Token)
    | Set(call: Call)
    | Remember(call: Call)
    | Release(call: Call, holder: Token)
    | Delete(call: Call)
    | Clear(call: Call)
    | Fail(call: Call)

  predicate IsLocked(s: State) {
    s.lock.Some? && s.now < s.lock.value.deadline
  }

  /** The holder is between its grant and its release. */
  predicate Works(s: State, t: Token) {
    t in s.grants && !s.grants[t].finished
  }

  predicate InTime(s: State, t: Token) {
    t in s.grants && s.now < s.grants[t].deadline
  }

  function Put(s: State, call: Call, pc: Pc): State {
    s.(calls := s.calls[call := pc])
  }

  predicate At(s: State, call: Call) {
    call in s.calls
  }

  predicate FreshToken(s: State, token: Token) {
    token !in s.grants && forall c | c in s.calls :: s.calls[c].Setting? ==> s.calls[c].token != token
  }

  /** A call of the process is between its command and the end of it. */
  predicate InFlight(pc: Pc, p: Process) {
    match pc
    case Granted(q, _) => q == p
    case Deleting(q, _) => q == p
    case Clearing(q) => q == p
    case _ => false
  }

  predicate Idle(s: State, p: Process) {
    forall c | c in s.calls :: !InFlight(s.calls[c], p)
  }

  /** The acquire that was granted the token has returned. */
  predicate Returned(s: State, t: Token) {
    forall c | c in s.calls :: s.calls[c].Granted? ==> s.calls[c].token != t
  }

  function Apply(env: Env, s: State, e: Event): Option<State> {
    match e
    case Tick(ms) => Some(s.(now := s.now + ms))
    case Acquire(call, process, token) =>
      if call !in s.calls && FreshToken(s, token) then Some(Put(s, call, Setting(process, token))) else None
    case Set(call) =>
      if At(s, call) && s.calls[call].Setting? then
        var p, t := s.calls[call].process, s.calls[call].token;
        if IsLocked(s) then Some(s)
        else if env.serial && !Idle(s, p) then None
        else Some(Put(s, call, Granted(p, t)).(
                    lock := Some(Lock(t, s.now + env.ttlMs)),
                    grants := s.grants[t := Grant(p, s.now + env.ttlMs, false, false)]))
      else None
    case Remember(call) =>
      if At(s, call) && s.calls[call].Granted?
      then Some(Put(s, call, Over).(held := s.held[s.calls[call].process := s.calls[call].token])) else None
    case Release(call, holder) =>
      if call !in s.calls && Works(s, holder) && Returned(s, holder) && (env.timely ==> InTime(s, holder))
         && (env.serial ==> Idle(s, s.grants[holder].process)) then
        var p := s.grants[holder].process;
        var done := s.(grants := s.grants[holder := s.grants[holder].(finished := true)]);
        Some(Put(done, call, if p in s.held then Deleting(p, s.held[p]) else Over))
      else None
    case Delete(call) =>
      if At(s, call) && s.calls[call].Deleting? then
        var p, t := s.calls[call].process, s.calls[call].token;
        if IsLocked(s) && s.lock.value.token == t && t in s.grants
        then Some(Put(s, call, Clearing(p)).(lock := None, grants := s.grants[t := s.grants[t].(released := true)]))
        else Some(Put(s, call, Clearing(p)))
      else None
    case Clear(call) =>
      if At(s, call) && s.calls[call].Clearing?
      then Some(Put(s, call, Over).(held := s.held - {s.calls[call].process})) else None
    case Fail(call) =>
      if At(s, call) && !env.reliable then
        var pc := s.calls[call];
        var dropped := if pc.Granted? && pc.token in s.grants
                       then s.(grants := s.grants[pc.token := s.grants[pc.token].(finished := true)]) else s;
        Some(Put(dropped, call, Over))
      else None
  }

  function Run(env: Env, s: State, events: seq<Event>): Option<State>
    decreases |events|
  {
    if events == [] then Some(s) else
      match Apply(env, s, events[0])
      case None => None
      case Some(next) => Run(env, next, events[1..])
  }

  function Init(): State {
    State(0, None, map[], map[], map[])
  }

  // ---- what every run keeps ----

  /** A process remembers and deletes only tokens that were granted to it. */
  ghost predicate OwnTokens(s: State) {
    && (forall p | p in s.held :: s.held[p] in s.grants && s.grants[s.held[p]].process == p)
    && (forall c | c in s.calls && (s.calls[c].Granted? || s.calls[c].Deleting?) ::
          s.calls[c].token in s.grants && s.grants[s.calls[c].token].process == s.calls[c].process)
    && (forall c | c in s.calls && s.calls[c].Setting? :: s.calls[c].token !in s.grants)
    && (forall c, d | c in s.calls && d in s.calls && s.calls[c].Setting? && s.calls[d].Setting? ::
          s.calls[c].token == s.calls[d].token ==> c == d)
  }

  predicate Current(s: State, t: Token) {
    InTime(s, t) && !s.grants[t].released
  }

  /** A grant that is neither released nor expired is the lock itself. */
  ghost predicate LockIsGrant(s: State) {
    && (forall t | Current(s, t) :: s.lock == Some(Lock(t, s.grants[t].deadline)))
    && (s.lock.Some? ==>
          var l := s.lock.value;
          l.token in s.grants && s.grants[l.token].deadline == l.deadline && !s.grants[l.token].released)
  }

  ghost predicate Inv(s: State) {
    OwnTokens(s) && LockIsGrant(s)
  }

  lemma EventKeepsInv(env: Env, s: State, e: Event)
    requires Inv(s) && Apply(env, s, e).Some?
    ensures Inv(Apply(env, s, e).value)
  {
    EventKeepsOwnTokens(env, s, e);
    EventKeepsLockIsGrant(env, s, e);
  }

  lemma EventKeepsOwnTokens(env: Env, s: State, e: Event)
    requires OwnTokens(s) && Apply(env, s, e).Some?
    ensures OwnTokens(Apply(env, s, e).value)
  {
  }

  lemma EventKeepsLockIsGrant(env: Env, s: State, e: Event)
    requires Inv(s) && Apply(env, s, e).Some?
    ensures LockIsGrant(Apply(env, s, e).value)
  {
    var next := Apply(env, s, e).value;
    assert forall t | Current(next, t) && !e.Set? :: Current(s, t);
    assert forall t | Current(next, t) && t in s.grants && IsLocked(s) :: Current(s, t);
  }

  /** Nobody deletes the lock of a holder that still works. */
  ghost predicate Protected(s: State) {
    && (forall t | Works(s, t) && InTime(s, t) :: !s.grants[t].released)
    && (forall c | c in s.calls && s.calls[c].Deleting? ::
          s.calls[c].token in s.grants && (s.grants[s.calls[c].token].finished || !Current(s, s.calls[c].token)))
  }

  lemma EventKeepsProtected(env: Env, s: State, e: Event)
    requires env.timely && Inv(s) && Protected(s) && Apply(env, s, e).Some?
    ensures Protected(Apply(env, s, e).value)
  {
  }

  /** The invariant always; protection too, if holders are timely. */
  lemma {:induction false} RunKeepsInv(env: Env, s: State, events: seq<Event>)
    requires Inv(s) && Run(env, s, events).Some?
    ensures var r := Run(env, s, events).value; Inv(r) && (env.timely && Protected(s) ==> Protected(r))
    decreases |events|
  {
    if events != [] {
      EventKeepsInv(env, s, events[0]);
      if env.timely && Protected(s) {
        EventKeepsProtected(env, s, events[0]);
      }
      RunKeepsInv(env, Apply(env, s, events[0]).value, events[1..]);
    }
  }

  /** In every reachable state, a delete removes nothing but a lock written by the same process. */
  lemma NoForeignDelete(env: Env, events: seq<Event>, call: Call)
    requires Run(env, Init(), events).Some?
    requires Apply(env, Run(env, Init(), events).value, Delete(call)).Some?
    ensures var s := Run(env, Init(), events).value;
            var next := Apply(env, s, Delete(call)).value;
            next.lock == s.lock ||
            (s.lock.Some? && next.lock == None && s.grants[s.lock.value.token].process == s.calls[call].process)
  {
    RunKeepsInv(env, Init(), events);
  }

  /** Whenever an acquire succeeds, every earlier grant has been released or has expired. */
  lemma GrantMeansOthersOver(env: Env, events: seq<Event>, call: Call)
    requires Run(env, Init(), events).Some?
    requires Apply(env, Run(env, Init(), events).value, Set(call)).Some?
    ensures var s := Run(env, Init(), events).value;
            var next := Apply(env, s, Set(call)).value;
            next.calls[call].Granted? ==>
              forall t | t in s.grants :: s.grants[t].released || s.grants[t].deadline <= s.now
  {
    RunKeepsInv(env, Init(), events);
    var s := Run(env, Init(), events).value;
    assert forall t | t in s.grants :: s.grants[t].released || s.grants[t].deadline <= s.now || Current(s, t);
  }

  // ---- mutual exclusion ----

  /** At most one holder works on an unexpired grant, in every run. */
  ghost predicate Excludes(env: Env) {
    forall events {:trigger Run(env, Init(), events)} | Run(env, Init(), events).Some? ::
      var s := Run(env, Init(), events).value;
      forall t, u | Works(s, t) && InTime(s, t) && Works(s, u) && InTime(s, u) :: t == u
  }

  lemma {:induction false} RunOneMore(env: Env, s: State, events: seq<Event>, e: Event)
    requires Run(env, s, events).Some?
    ensures Run(env, s, events + [e]) == Apply(env, Run(env, s, events).value, e)
    decreases |events|
  {
    if events == [] {
      assert events + [e] == [e] && [e][1..] == [];
    } else {
      assert (events + [e])[0] == events[0] && (events + [e])[1..] == events[1..] + [e];
      RunOneMore(env, Apply(env, s, events[0]).value, events[1..], e);
    }
  }

  /** An acquire that finds the lock free. */
  lemma Take(env: Env, events: seq<Event>, call: Call, p: Process, t: Token) returns (longer: seq<Event>)
    requires Run(env, Init(), events).Some?
    requires var s := Run(env, Init(), events).value;
             call !in s.calls && FreshToken(s, t) && !IsLocked(s) && (env.serial ==> Idle(s, p))
    ensures Run(env, Init(), longer).Some?
    ensures var s, next := Run(env, Init(), events).value, Run(env, Init(), longer).value;
            var deadline := s.now + env.ttlMs;
            next == State(s.now, Some(Lock(t, deadline)), s.held[p := t],
                          s.grants[t := Grant(p, deadline, false, false)], s.calls[call := Over])
  {
    var s := Run(env, Init(), events).value;
    RunOneMore(env, Init(), events, Acquire(call, p, t));
    longer := events + [Acquire(call, p, t)];
    RunOneMore(env, Init(), longer, Set(call));
    longer := longer + [Set(call)];
    RunOneMore(env, Init(), longer, Remember(call));
    longer := longer + [Remember(call)];
    assert Run(env, Init(), longer).value.calls == s.calls[call := Over];
  }

  lemma Then(env: Env, events: seq<Event>, e: Event) returns (longer: seq<Event>)
    requires Run(env, Init(), events).Some? && Apply(env, Run(env, Init(), events).value, e).Some?
    ensures Run(env, Init(), longer) == Apply(env, Run(env, Init(), events).value, e)
  {
    RunOneMore(env, Init(), events, e);
    longer := events + [e];
  }

  /** Holder 10 has overstayed, and holder 11 of the same process has the lock. */
  lemma Overstayed(env: Env) returns (es: seq<Event>)
    ensures Run(env, Init(), es) ==
            Some(State(env.ttlMs, Some(Lock(11, 2 * env.ttlMs)), map[1 := 11],
                       map[10 := Grant(1, env.ttlMs, false, false), 11 := Grant(1, 2 * env.ttlMs, false, false)],
                       map[0 := Over, 1 := Over]))
  {
    assert Run(env, Init(), []) == Some(Init());
    es := Take(env, [], 0, 1, 10);
    es := Then(env, es, Tick(env.ttlMs));
    es := Take(env, es, 1, 1, 11);
    var s := Run(env, Init(), es).value;
    assert s.held == map[1 := 11] && s.calls == map[0 := Over, 1 := Over];
    assert s.grants == map[10 := Grant(1, env.ttlMs, false, false), 11 := Grant(1, 2 * env.ttlMs, false, false)];
  }

  /** A holder that overstays releases the lock of the next holder in its own process. */
  lemma LateReleaseBreaksExclusion(env: Env)
    requires !env.timely && env.ttlMs > 0
    ensures !Excludes(env)
  {
    var es := Overstayed(env);
    es := Then(env, es, Release(2, 10));
    es := Then(env, es, Delete(2));
    assert Run(env, Init(), es).value.lock == None;
    es := Take(env, es, 3, 2, 12);
    var s := Run(env, Init(), es).value;
    assert Works(s, 11) && InTime(s, 11) && Works(s, 12) && InTime(s, 12);
  }

  /** Unexpired holders exclude each other exactly when nobody releases late, or locks expire at once. */
  lemma ExcludesIff(env: Env)
    ensures Excludes(env) <==> env.timely || env.ttlMs == 0
  {
    if env.timely {
      forall events {:trigger Run(env, Init(), events)} | Run(env, Init(), events).Some?
        ensures var s := Run(env, Init(), events).value;
                forall t, u | Works(s, t) && InTime(s, t) && Works(s, u) && InTime(s, u) :: t == u
      {
        RunKeepsInv(env, Init(), events);
        var s := Run(env, Init(), events).value;
        assert forall t | Works(s, t) && InTime(s, t) :: Current(s, t);
      }
    } else if env.ttlMs == 0 {
      forall events {:trigger Run(env, Init(), events)} | Run(env, Init(), events).Some?
        ensures var s := Run(env, Init(), events).value; forall t :: !InTime(s, t)
      {
        RunKeepsDeadlines(env, Init(), events);
      }
    } else {
      LateReleaseBreaksExclusion(env);
    }
  }

  lemma {:induction false} RunKeepsDeadlines(env: Env, s: State, events: seq<Event>)
    requires env.ttlMs == 0 && Run(env, s, events).Some? && forall t | t in s.grants :: s.grants[t].deadline <= s.now
    ensures var r := Run(env, s, events).value; forall t | t in r.grants :: r.grants[t].deadline <= r.now
    decreases |events|
  {
    if events != [] {
      RunKeepsDeadlines(env, Apply(env, s, events[0]).value, events[1..]);
    }
  }

  lemma ReleasedButNotCleared(env: Env) returns (es: seq<Event>)
    requires env.ttlMs > 0
    ensures Run(env, Init(), es) ==
            Some(State(0, None, map[1 := 10], map[10 := Grant(1, env.ttlMs, true, true)],
                       map[0 := Over, 1 := Clearing(1)]))
  {
    assert Run(env, Init(), []) == Some(Init());
    es := Take(env, [], 0, 1, 10);
    es := Then(env, es, Release(1, 10));
    es := Then(env, es, Delete(1));
    var s := Run(env, Init(), es).value;
    assert s.held == map[1 := 10] && s.calls == map[0 := Over, 1 := Clearing(1)];
    assert s.grants == map[10 := Grant(1, env.ttlMs, true, true)];
  }

  /**
   A release that clears the token map late wipes the token of the next holder in its process: that
   holder's release does nothing, and its lock stays until it expires.
   */
  lemma LateClearStrandsLock(env: Env) returns (es: seq<Event>)
    requires env.ttlMs > 0 && !env.serial
    ensures Run(env, Init(), es).Some?
    ensures var s := Run(env, Init(), es).value;
            && IsLocked(s) && !Works(s, s.lock.value.token)
            && forall c | c in s.calls :: s.calls[c].Over?
  {
    es := ReleasedButNotCleared(env);
    es := Take(env, es, 2, 1, 11);
    es := Then(env, es, Clear(1));
    es := Then(env, es, Release(3, 11));
  }

  // ---- exactly when no lock is stranded ----

  /** The lock is there, nobody works under it, and no call in flight will remove it. */
  predicate Stranded(s: State) {
    && IsLocked(s) && !Works(s, s.lock.value.token)
    && forall c | c in s.calls :: s.calls[c].Over? || s.calls[c].Setting?
  }

  ghost predicate NeverStrands(env: Env) {
    forall events {:trigger Run(env, Init(), events)} | Run(env, Init(), events).Some? ::
      !Stranded(Run(env, Init(), events).value)
  }

  predicate CallIs(s: State, pc: Pc) {
    exists c :: c in s.calls && s.calls[c] == pc
  }

  /** No call of the process is about to remember or delete another token, or to forget its token. */
  predicate OnlyCalls(s: State, p: Process, t: Token) {
    forall c | c in s.calls && InFlight(s.calls[c], p) :: s.calls[c] == Granted(p, t) || s.calls[c] == Deleting(p, t)
  }

  /** The live lock is known to its process: about to be remembered, remembered, or about to be deleted. */
  predicate Kept(s: State) {
    IsLocked(s) ==>
      var t := s.lock.value.token;
      && t in s.grants
      && var p := s.grants[t].process;
         && OnlyCalls(s, p, t)
         && if s.grants[t].finished then CallIs(s, Deleting(p, t))
            else CallIs(s, Granted(p, t)) || (p in s.held && s.held[p] == t)
  }

  lemma PutKeepsCall(s: State, call: Call, to: Pc, pc: Pc)
    requires CallIs(s, pc) && (call in s.calls ==> s.calls[call] != pc)
    ensures CallIs(Put(s, call, to), pc)
  {
    var c :| c in s.calls && s.calls[c] == pc;
    assert Put(s, call, to).calls[c] == pc;
  }

  lemma PutIsCall(s: State, call: Call, pc: Pc)
    ensures CallIs(Put(s, call, pc), pc)
  {
    assert Put(s, call, pc).calls[call] == pc;
  }

  lemma SetKeepsKept(env: Env, s: State, call: Call)
    requires env.serial && Inv(s) && Kept(s) && Apply(env, s, Set(call)).Some?
    ensures Kept(Apply(env, s, Set(call)).value)
  {
    if !IsLocked(s) {
      PutIsCall(s, call, Granted(s.calls[call].process, s.calls[call].token));
      var next := Apply(env, s, Set(call)).value;
      assert next.calls[call] == Granted(s.calls[call].process, s.calls[call].token);
    }
  }

  lemma RememberKeepsKept(env: Env, s: State, call: Call)
    requires Inv(s) && Kept(s) && Apply(env, s, Remember(call)).Some?
    ensures Kept(Apply(env, s, Remember(call)).value)
  {
    if IsLocked(s) {
      var t := s.lock.value.token;
      var p := s.grants[t].process;
      if CallIs(s, Deleting(p, t)) {
        PutKeepsCall(s, call, Over, Deleting(p, t));
      }
      if CallIs(s, Granted(p, t)) && s.calls[call] != Granted(p, t) {
        PutKeepsCall(s, call, Over, Granted(p, t));
      }
    }
  }

  lemma ReleaseKeepsKept(env: Env, s: State, call: Call, holder: Token)
    requires env.serial && Inv(s) && Kept(s) && Apply(env, s, Release(call, holder)).Some?
    ensures Kept(Apply(env, s, Release(call, holder)).value)
  {
    if IsLocked(s) {
      var t := s.lock.value.token;
      var p, q := s.grants[t].process, s.grants[holder].process;
      var to := if q in s.held then Deleting(q, s.held[q]) else Over;
      PutIsCall(s, call, to);
      if CallIs(s, Deleting(p, t)) {
        PutKeepsCall(s, call, to, Deleting(p, t));
      }
      if CallIs(s, Granted(p, t)) {
        PutKeepsCall(s, call, to, Granted(p, t));
      }
    }
  }

  lemma DeleteKeepsKept(env: Env, s: State, call: Call)
    requires Inv(s) && Kept(s) && Apply(env, s, Delete(call)).Some?
    ensures Kept(Apply(env, s, Delete(call)).value)
  {
    var next := Apply(env, s, Delete(call)).value;
    if IsLocked(next) {
      var t := s.lock.value.token;
      var p := s.grants[t].process;
      var to := Clearing(s.calls[call].process);
      assert !InFlight(s.calls[call], p);
      if CallIs(s, Deleting(p, t)) {
        PutKeepsCall(s, call, to, Deleting(p, t));
      }
      if CallIs(s, Granted(p, t)) {
        PutKeepsCall(s, call, to, Granted(p, t));
      }
    }
  }

  /** Starting an acquire, or forgetting a token. */
  lemma OtherCallKeepsKept(env: Env, s: State, e: Event)
    requires Inv(s) && Kept(s) && (e.Acquire? || e.Clear?) && Apply(env, s, e).Some?
    ensures Kept(Apply(env, s, e).value)
  {
    if IsLocked(s) {
      var t := s.lock.value.token;
      var p := s.grants[t].process;
      var to := if e.Acquire? then Setting(e.process, e.token) else Over;
      if CallIs(s, Deleting(p, t)) {
        PutKeepsCall(s, e.call, to, Deleting(p, t));
      }
      if CallIs(s, Granted(p, t)) {
        PutKeepsCall(s, e.call, to, Granted(p, t));
      }
      assert e.Clear? ==> InFlight(s.calls[e.call], s.calls[e.call].process);
    }
  }

  lemma EventKeepsKept(env: Env, s: State, e: Event)
    requires env.serial && env.reliable && Inv(s) && Kept(s) && Apply(env, s, e).Some?
    ensures Kept(Apply(env, s, e).value)
  {
    match e
    case Tick(_) =>
    case Set(call) => SetKeepsKept(env, s, call);
    case Remember(call) => RememberKeepsKept(env, s, call);
    case Release(call, holder) => ReleaseKeepsKept(env, s, call, holder);
    case Delete(call) => DeleteKeepsKept(env, s, call);
    case _ => OtherCallKeepsKept(env, s, e);
  }

  lemma {:induction false} RunKeepsKept(env: Env, s: State, events: seq<Event>)
    requires env.serial && env.reliable && Inv(s) && Kept(s) && Run(env, s, events).Some?
    ensures Kept(Run(env, s, events).value)
    decreases |events|
  {
    if events != [] {
      EventKeepsInv(env, s, events[0]);
      EventKeepsKept(env, s, events[0]);
      RunKeepsKept(env, Apply(env, s, events[0]).value, events[1..]);
    }
  }

  /** An acquire whose command got the lock, and whose answer is lost. */
  lemma LostAnswerStrandsLock(env: Env) returns (es: seq<Event>)
    requires env.ttlMs > 0 && !env.reliable
    ensures Run(env, Init(), es).Some? && Stranded(Run(env, Init(), es).value)
  {
    assert Run(env, Init(), []) == Some(Init());
    es := Then(env, [], Acquire(0, 1, 10));
    es := Then(env, es, Set(0));
    es := Then(env, es, Fail(0));
  }

  /**
   In every run, a holder's release frees the lock that it still has, and no lock is left behind, if and
   only if the calls of a process take turns and none fails, or locks expire at once.
   */
  lemma NeverStrandsIff(env: Env)
    ensures NeverStrands(env) <==> (env.serial && env.reliable) || env.ttlMs == 0
  {
    if env.ttlMs == 0 || (env.serial && env.reliable) {
      forall events {:trigger Run(env, Init(), events)} | Run(env, Init(), events).Some?
        ensures !Stranded(Run(env, Init(), events).value)
      {
        RunKeepsInv(env, Init(), events);
        if env.ttlMs == 0 {
          RunKeepsDeadlines(env, Init(), events);
        } else {
          RunKeepsKept(env, Init(), events);
        }
      }
    } else if !env.reliable {
      var es := LostAnswerStrandsLock(env);
    } else {
      var es := LateClearStrandsLock(env);
    }
  }

  // ---- one process, nothing interleaving ----

  datatype Stored = Stored(token: string, deadline: int)

  class LockClient {
    var now: int
    var redis: map<string, Stored>
    var heldLockTokens: map<string, string>

    constructor ()
      ensures redis == map[] && heldLockTokens == map[]
    {
      now, redis, heldLockTokens := 0, map[], map[];
    }

    predicate Locked(key: string)
      reads this
    {
      key in redis && now < redis[key].deadline
    }

    /** Tries once and then `retries` times more, and gets the lock if it expires while it waits. */
    method AcquireLock(key: string, token: string, ttlMs: nat, retries: nat, retryDelayMs: nat) returns (acquired: bool)
      modifies this
      ensures acquired <==> key !in old(redis) || old(redis)[key].deadline <= old(now) + retries * retryDelayMs
      ensures old(now) <= now <= old(now) + retries * retryDelayMs
      ensures acquired ==> redis == old(redis)[key := Stored(token, now + ttlMs)]
                           && heldLockTokens == old(heldLockTokens)[key := token]
      ensures !acquired ==> redis == old(redis) && heldLockTokens == old(heldLockTokens)
    {
      var attempts := 0;
      while attempts < retries + 1
        invariant 0 <= attempts <= retries
        invariant now == old(now) + attempts * retryDelayMs
        invariant redis == old(redis) && heldLockTokens == old(heldLockTokens)
        invariant attempts > 0 ==> key in redis
        decreases retries + 1 - attempts
      {
        if !Locked(key) {
          redis := redis[key := Stored(token, now + ttlMs)];
          heldLockTokens := heldLockTokens[key := token];
          return true;
        }
        if attempts < retries {
          now := now + retryDelayMs;
          attempts := attempts + 1;
          continue;
        }
        return false;
      }
      return false;
    }

    /** Deletes the lock only if it still carries the remembered token, and forgets the token. */
    method ReleaseLock(key: string)
      modifies this
      ensures now == old(now)
      ensures heldLockTokens == if key in old(heldLockTokens) && old(heldLockTokens)[key] == ""
                                then old(heldLockTokens) else old(heldLockTokens) - {key}
      ensures redis == if key in old(heldLockTokens) && old(heldLockTokens)[key] != "" && old(Locked(key))
                          && old(redis)[key].token == old(heldLockTokens)[key]
                       then old(redis) - {key} else old(redis)
    {
      if key !in heldLockTokens || heldLockTokens[key] == "" {
        return;
      }
      var token := heldLockTokens[key];
      if Locked(key) && redis[key].token == token {
        redis := redis - {key};
      }
      heldLockTokens := heldLockTokens - {key};
    }
  }
}
