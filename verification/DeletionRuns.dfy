/**
 The deletion worker over whole runs: any number of workers take up one deletion request, each query
 is a step, and an attempt may throw, crash or be overtaken at any await
 (processMessage of apps/worker/src/workers/deletion-stream.worker.ts).
 */
module DeletionRuns {
  import opened Wrappers
  import opened UserErasure

  /** Milliseconds. */
  const LEASE: int := 900000

  datatype Status = Pending | Processing | Completed | Failed

  /** `owner` stands for processingOwner, which no query reads. */
  datatype Request = Request(
    userId: Option<Id>,
    snapshot: Option<Id>,
    deadline: int,
    status: Status,
    lease: Option<int>,
    owner: Option<nat>,
    attemptCount: nat)

  /**
   `at` is the time an attempt reads before its claim.  `late` is bookkeeping for the statements below:
   the links the user has added since this attempt deleted the user's links.
   */
  datatype Attempt =
    | Fetched(target: Id, at: int)
    | Working(target: Id, lease: int, step: nat, ids: set<Id>, late: set<Id>)
    | Over

  /**
   The user to be erased, and what may happen: whether an attempt's steps all come before its lease
   runs out, whether an attempt may throw before it has claimed the request, and whether the user may add
   a link while an attempt is past its link query.
   */
  datatype Env = Env(user: Id, timely: bool, earlyFaults: bool, lateLinks: bool)

  /**
   `madeBy` remembers who added a link; `lost` the links the user had when the user's row was deleted.
   */
  datatype State = State(
    now: int,
    t: Tables,
    request: Request,
    attempts: map<nat, Attempt>,
    madeBy: map<Id, Id>,
    lost: set<Id>)

  datatype Event =
    | Tick(ms: nat)
    | AddUser(user: Id)
    | AddLink(link: Id, maker: Id)
    | AddEvent(event: Id, link: Id)
    | AddAuthRow(row: Row, user: Id)
    | Begin(a: nat, payloadUser: Id)
    | Claim(a: nat)
    | Advance(a: nat)
    | Finish(a: nat)
    | Fault(a: nat, exhausted: bool)
    | Crash(a: nat)

  function EffectiveUser(r: Request, payloadUser: Id): Id {
    if r.userId.Some? then r.userId.value else if r.snapshot.Some? then r.snapshot.value else payloadUser
  }

  /** The claim's WHERE clause, with the time the attempt read beforehand. */
  predicate Claimable(r: Request, at: int) {
    r.status == Pending || (r.status == Processing && (r.lease.None? || r.lease.value < at))
  }

  function Claimed(r: Request, a: nat, at: int): Request {
    r.(status := Processing, lease := Some(at + LEASE), owner := Some(a), attemptCount := r.attemptCount + 1)
  }

  function Ended(r: Request, status: Status): Request {
    r.(status := status, lease := None, owner := None)
  }

  function Put(s: State, a: nat, attempt: Attempt): State {
    s.(attempts := s.attempts[a := attempt])
  }

  /** The attempt is between its claim and its end, and its lease has not run out. */
  predicate IsLive(s: State, a: nat) {
    a in s.attempts && s.attempts[a].Working? && s.now <= s.attempts[a].lease
  }

  predicate MayAct(env: Env, s: State, a: nat) {
    a in s.attempts && s.attempts[a].Working? && (env.timely ==> IsLive(s, a))
  }

  /** Some attempt has deleted the user's links and not ended. */
  predicate PastLinkQuery(s: State) {
    exists a :: a in s.attempts && s.attempts[a].Working? && s.attempts[a].step >= 3
  }

  function AddToLate(attempts: map<nat, Attempt>, link: Id): map<nat, Attempt> {
    map a | a in attempts ::
      if attempts[a].Working? && attempts[a].step >= 3 then attempts[a].(late := attempts[a].late + {link})
      else attempts[a]
  }

  function AfterQuery(env: Env, s: State, a: nat): State
    requires a in s.attempts && s.attempts[a].Working?
  {
    var w := s.attempts[a];
    var u := w.target;
    var next := w.(step := w.step + 1,
                   ids := Selected(s.t, u, w.ids, w.step),
                   late := if w.step == 2 then {} else w.late);
    Put(s, a, next).(
      t := Query(s.t, u, w.ids, w.step),
      request := if w.step == 7 && s.request.userId == Some(u) then s.request.(userId := None) else s.request,
      lost := if w.step == 7 && env.user in s.t.users then w.late else s.lost)
  }

  function Apply(env: Env, s: State, e: Event): Option<State> {
    match e
    case Tick(ms) => Some(s.(now := s.now + ms))
    case AddUser(user) =>
      if user != env.user then Some(s.(t := s.t.(users := s.t.users + {user}))) else None
    case AddLink(link, maker) =>
      if link !in s.t.links && link !in s.madeBy && maker in s.t.users
         && (maker == env.user ==> env.lateLinks || !PastLinkQuery(s))
      then Some(s.(t := s.t.(links := s.t.links[link := Some(maker)]),
                   madeBy := s.madeBy[link := maker],
                   attempts := if maker == env.user then AddToLate(s.attempts, link) else s.attempts))
      else None
    case AddEvent(event, link) =>
      if event !in s.t.events && link in s.t.links
      then Some(s.(t := s.t.(events := s.t.events[event := link]))) else None
    case AddAuthRow(row, user) =>
      if row !in s.t.auth && user in s.t.users
      then Some(s.(t := s.t.(auth := s.t.auth[row := user]))) else None
    case Begin(a, payloadUser) =>
      if a in s.attempts then None
      else if s.now < s.request.deadline then Some(Put(s, a, Over))
      else Some(Put(s, a, Fetched(EffectiveUser(s.request, payloadUser), s.now)))
    case Claim(a) =>
      if a in s.attempts && s.attempts[a].Fetched? then
        var f := s.attempts[a];
        if Claimable(s.request, f.at)
        then Some(Put(s, a, Working(f.target, f.at + LEASE, 0, {}, {})).(request := Claimed(s.request, a, f.at)))
        else Some(Put(s, a, Over))
      else None
    case Advance(a) =>
      if MayAct(env, s, a) && s.attempts[a].step < STEPS then Some(AfterQuery(env, s, a)) else None
    case Finish(a) =>
      if MayAct(env, s, a) && s.attempts[a].step == STEPS
      then Some(Put(s, a, Over).(request := Ended(s.request, Completed))) else None
    case Fault(a, exhausted) =>
      if MayAct(env, s, a) || (env.earlyFaults && a in s.attempts && s.attempts[a].Fetched?)
      then Some(Put(s, a, Over).(request := Ended(s.request, if exhausted then Failed else Pending))) else None
    case Crash(a) =>
      if a in s.attempts then Some(Put(s, a, Over)) else None
  }

  function Run(env: Env, s: State, events: seq<Event>): Option<State>
    decreases |events|
  {
    if events == [] then Some(s) else
      match Apply(env, s, events[0])
      case None => None
      case Some(next) => Run(env, next, events[1..])
  }

  /** A fresh request of a user, over tables whose owned links are known to their makers. */
  ghost predicate Init(env: Env, s: State) {
    && ForeignKeys(s.t) && env.user in s.t.users
    && s.request.userId == Some(env.user) && s.request.snapshot == Some(env.user)
    && s.request.status == Pending && s.attempts == map[] && s.lost == {}
    && (forall l :: l in s.madeBy <==> l in s.t.links && s.t.links[l].Some?)
    && (forall l | l in s.madeBy :: s.t.links[l] == Some(s.madeBy[l]))
  }

  // ---- what every run keeps ----

  /** Whoever works, works on the user of the request, and a finished erasure leaves no user row. */
  ghost predicate Targets(env: Env, s: State) {
    && ForeignKeys(s.t)
    && s.request.snapshot == Some(env.user)
    && (s.request.userId.Some? ==> s.request.userId.value == env.user)
    && (forall a | a in s.attempts :: !s.attempts[a].Over? ==> s.attempts[a].target == env.user)
    && (forall a | a in s.attempts :: s.attempts[a].Working? && s.attempts[a].step == STEPS ==> env.user !in s.t.users)
    && (s.request.status == Completed ==> env.user !in s.t.users)
  }

  lemma AddToLateKeeps(attempts: map<nat, Attempt>, link: Id)
    ensures AddToLate(attempts, link).Keys == attempts.Keys
    ensures forall a | a in attempts ::
              var b := AddToLate(attempts, link)[a];
              && b.Over? == attempts[a].Over? && b.Fetched? == attempts[a].Fetched?
              && (!b.Over? ==> b.target == attempts[a].target)
              && (b.Fetched? ==> b == attempts[a])
              && (b.Working? ==> b.lease == attempts[a].lease && b.step == attempts[a].step)
  {
  }

  predicate AddsRows(e: Event) {
    e.AddUser? || e.AddLink? || e.AddEvent? || e.AddAuthRow?
  }

  lemma RowsKeepTargets(env: Env, s: State, e: Event)
    requires Targets(env, s) && AddsRows(e) && Apply(env, s, e).Some?
    ensures Targets(env, Apply(env, s, e).value)
  {
    if e.AddLink? {
      AddToLateKeeps(s.attempts, e.link);
    }
  }

  lemma AdvanceKeepsTargets(env: Env, s: State, a: nat)
    requires Targets(env, s) && MayAct(env, s, a) && s.attempts[a].step < STEPS
    ensures Targets(env, AfterQuery(env, s, a))
  {
    var w := s.attempts[a];
    var u := w.target;
    assert Query(s.t, u, w.ids, w.step).users == if w.step == 7 then s.t.users - {u} else s.t.users;
  }

  lemma EventKeepsTargets(env: Env, s: State, e: Event)
    requires Targets(env, s) && Apply(env, s, e).Some?
    ensures Targets(env, Apply(env, s, e).value)
  {
    if AddsRows(e) {
      RowsKeepTargets(env, s, e);
    } else if e.Advance? {
      AdvanceKeepsTargets(env, s, e.a);
    }
  }

  // ---- the lease ----

  /** A live attempt holds the request: the row says so. */
  ghost predicate Held(s: State) {
    && (forall a | IsLive(s, a) ::
          s.request.status == Processing && s.request.lease == Some(s.attempts[a].lease) && s.request.owner == Some(a))
    && (forall a | a in s.attempts :: s.attempts[a].Fetched? ==> s.attempts[a].at <= s.now)
  }

  lemma ClaimKeepsHeld(env: Env, s: State, a: nat)
    requires Held(s) && Apply(env, s, Claim(a)).Some?
    ensures Held(Apply(env, s, Claim(a)).value)
  {
    var next := Apply(env, s, Claim(a)).value;
    forall b | IsLive(next, b) && b != a ensures IsLive(s, b) {
      assert s.attempts[b] == next.attempts[b];
    }
  }

  lemma AdvanceKeepsHeld(env: Env, s: State, a: nat)
    requires Held(s) && MayAct(env, s, a)
    ensures Held(AfterQuery(env, s, a))
  {
    var next := AfterQuery(env, s, a);
    assert forall b | b in s.attempts && b != a :: next.attempts[b] == s.attempts[b];
    assert forall b | IsLive(next, b) :: IsLive(s, b);
  }

  lemma EventKeepsHeld(env: Env, s: State, e: Event)
    requires env.timely && !env.earlyFaults && Held(s) && Apply(env, s, e).Some?
    ensures Held(Apply(env, s, e).value)
  {
    var next := Apply(env, s, e).value;
    if e.AddLink? {
      AddToLateKeeps(s.attempts, e.link);
      assert forall a | IsLive(next, a) :: IsLive(s, a);
    } else if e.Claim? {
      ClaimKeepsHeld(env, s, e.a);
    } else if e.Advance? {
      AdvanceKeepsHeld(env, s, e.a);
    } else {
      assert forall b | IsLive(next, b) :: IsLive(s, b);
    }
  }

  // ---- links the user adds meanwhile ----

  ghost predicate MadeBy(s: State, u: Id, l: Id) {
    l in s.madeBy && s.madeBy[l] == u
  }

  ghost predicate Makers(env: Env, s: State) {
    && (forall l | l in s.t.links && s.t.links[l].Some? :: MadeBy(s, s.t.links[l].value, l))
    && (env.user in s.t.users ==>
          forall l | l in s.t.links && MadeBy(s, env.user, l) :: s.t.links[l] == Some(env.user))
  }

  /** The user's links that are still there: none but the late ones, once the link query has been made. */
  ghost predicate Lates(env: Env, s: State) {
    && (env.user in s.t.users ==>
          forall a | IsLive(s, a) && s.attempts[a].step >= 3 ::
            forall l :: l in s.attempts[a].late <==> l in s.t.links && MadeBy(s, env.user, l))
    && (env.user !in s.t.users ==> forall l :: l in s.lost <==> l in s.t.links && MadeBy(s, env.user, l))
  }

  lemma AddLinkKeepsLates(env: Env, s: State, link: Id, maker: Id)
    requires Targets(env, s) && Makers(env, s) && Lates(env, s) && Apply(env, s, AddLink(link, maker)).Some?
    ensures var next := Apply(env, s, AddLink(link, maker)).value; Makers(env, next) && Lates(env, next)
  {
    var next := Apply(env, s, AddLink(link, maker)).value;
    var u := env.user;
    AddToLateKeeps(s.attempts, link);
    assert forall l | l != link :: MadeBy(next, u, l) == MadeBy(s, u, l);
    assert !MadeBy(s, u, link) && MadeBy(next, u, link) == (maker == u);
    if u in s.t.users {
      forall a | IsLive(next, a) && next.attempts[a].step >= 3
        ensures forall l :: l in next.attempts[a].late <==> l in next.t.links && MadeBy(next, u, l)
      {
        assert IsLive(s, a);
      }
    }
  }

  lemma AdvanceKeepsMakers(env: Env, s: State, a: nat)
    requires Targets(env, s) && Makers(env, s) && MayAct(env, s, a) && s.attempts[a].step < STEPS
    ensures Makers(env, AfterQuery(env, s, a))
  {
    var w := s.attempts[a];
    var next := AfterQuery(env, s, a);
    assert next.t.links.Keys <= s.t.links.Keys;
    assert forall l | l in next.t.links :: next.t.links[l] == s.t.links[l] || (w.step == 7 && next.t.links[l] == None);
  }

  /** Only the link query removes links, and it removes all that the user still owns. */
  lemma AdvanceKeepsLates(env: Env, s: State, a: nat)
    requires env.timely && Targets(env, s) && Held(s) && Makers(env, s) && Lates(env, s)
    requires MayAct(env, s, a) && s.attempts[a].step < STEPS
    ensures Lates(env, AfterQuery(env, s, a))
  {
    var w := s.attempts[a];
    var u := env.user;
    var next := AfterQuery(env, s, a);
    if w.step == 2 {
      if u in s.t.users {
        assert forall l :: l in s.t.links && MadeBy(s, u, l) ==> l in LinksOf(s.t, u);
      } else {
        assert LinksOf(s.t, u) == {};
        assert next.t.links == s.t.links;
      }
    } else {
      assert next.t.links.Keys == s.t.links.Keys;
    }
    if u in next.t.users {
      forall b | IsLive(next, b) && next.attempts[b].step >= 3
        ensures forall l :: l in next.attempts[b].late <==> l in next.t.links && MadeBy(next, u, l)
      {
        assert IsLive(s, b) && IsLive(s, a);
        assert b == a;
      }
    }
  }

  /** Everything that holds in every state of a timely run without early faults. */
  ghost predicate Inv(env: Env, s: State) {
    Targets(env, s) && Held(s) && Makers(env, s) && Lates(env, s)
  }

  lemma OtherEventKeepsLates(env: Env, s: State, e: Event)
    requires Makers(env, s) && Lates(env, s) && Apply(env, s, e).Some? && !e.AddLink? && !e.Advance?
    ensures var next := Apply(env, s, e).value; Makers(env, next) && Lates(env, next)
  {
    var next := Apply(env, s, e).value;
    assert next.t.links == s.t.links && next.madeBy == s.madeBy && next.lost == s.lost;
    assert forall l :: MadeBy(next, env.user, l) == MadeBy(s, env.user, l);
    assert forall b | IsLive(next, b) && next.attempts[b].step >= 3 ::
        IsLive(s, b) && s.attempts[b] == next.attempts[b];
  }

  lemma InitHolds(env: Env, s: State)
    requires Init(env, s)
    ensures Inv(env, s)
  {
  }

  /** A completed or failed request has no live attempt, and nobody can claim it again. */
  lemma EventKeepsEnded(env: Env, s: State, e: Event)
    requires env.timely && !env.earlyFaults && Held(s) && Apply(env, s, e).Some?
    requires s.request.status == Completed || s.request.status == Failed
    ensures Apply(env, s, e).value.request.status == s.request.status
  {
    assert forall a :: !IsLive(s, a);
  }

  /** Targets always; everything in a timely run without early faults, where completed and failed also stay. */
  lemma {:induction false} RunKeepsInv(env: Env, s: State, events: seq<Event>)
    requires Targets(env, s) && Run(env, s, events).Some?
    ensures var r := Run(env, s, events).value;
            && Targets(env, r)
            && (env.timely && !env.earlyFaults && Inv(env, s) ==>
                  && Inv(env, r)
                  && (s.request.status == Completed || s.request.status == Failed ==>
                        r.request.status == s.request.status))
    decreases |events|
  {
    if events != [] {
      var e := events[0];
      EventKeepsTargets(env, s, e);
      if env.timely && !env.earlyFaults && Inv(env, s) {
        EventKeepsHeld(env, s, e);
        EventKeepsLates(env, s, e);
        if s.request.status == Completed || s.request.status == Failed {
          EventKeepsEnded(env, s, e);
        }
      }
      RunKeepsInv(env, Apply(env, s, e).value, events[1..]);
    }
  }

  lemma EventKeepsLates(env: Env, s: State, e: Event)
    requires env.timely && Inv(env, s) && Apply(env, s, e).Some?
    ensures var next := Apply(env, s, e).value; Makers(env, next) && Lates(env, next)
  {
    if e.AddLink? {
      AddLinkKeepsLates(env, s, e.link, e.maker);
    } else if e.Advance? {
      AdvanceKeepsMakers(env, s, e.a);
      AdvanceKeepsLates(env, s, e.a);
    } else {
      OtherEventKeepsLates(env, s, e);
    }
  }

  // ---- the theorems ----

  /**
   In every run, whatever overlaps: all attempts work on the user of the request, also after the
   user's row is gone, and a completed request leaves no row of the user.
   */
  lemma CompletedMeansErased(env: Env, s: State, events: seq<Event>)
    requires Init(env, s) && Run(env, s, events).Some?
    ensures var r := Run(env, s, events).value;
            && (forall a | a in r.attempts :: !r.attempts[a].Over? ==> r.attempts[a].target == env.user)
            && (forall p :: EffectiveUser(r.request, p) == env.user)
            && (r.request.status == Completed ==>
                  && env.user !in r.t.users
                  && (forall l | l in r.t.links :: r.t.links[l] != Some(env.user))
                  && (forall k | k in r.t.auth :: r.t.auth[k] != env.user))
  {
    InitHolds(env, s);
    RunKeepsInv(env, s, events);
  }

  /** Attempts that keep to their lease and do not throw before their claim never overlap. */
  lemma AtMostOneLiveAttempt(env: Env, s: State, events: seq<Event>)
    requires Init(env, s) && Run(env, s, events).Some? && env.timely && !env.earlyFaults
    ensures var r := Run(env, s, events).value; forall a, b | IsLive(r, a) && IsLive(r, b) :: a == b
  {
    InitHolds(env, s);
    RunKeepsInv(env, s, events);
  }

  /** Under the same two conditions, completed and failed are terminal. */
  lemma EndedIsTerminal(env: Env, s: State, before: seq<Event>, after: seq<Event>)
    requires Init(env, s) && env.timely && !env.earlyFaults && Run(env, s, before).Some?
    requires Run(env, Run(env, s, before).value, after).Some?
    ensures var was, later := Run(env, s, before).value.request.status,
                               Run(env, Run(env, s, before).value, after).value.request.status;
            (was == Completed ==> later == Completed) && (was == Failed ==> later == Failed)
  {
    InitHolds(env, s);
    RunKeepsInv(env, s, before);
    RunKeepsInv(env, Run(env, s, before).value, after);
  }

  /**
   What a completed request leaves of the user's links: exactly those that the user added after the
   link query of the attempt that deleted the user's row.  They are left without an owner.
   */
  lemma OnlyLateLinksSurvive(env: Env, s: State, events: seq<Event>)
    requires Init(env, s) && Run(env, s, events).Some? && env.timely && !env.earlyFaults
    requires Run(env, s, events).value.request.status == Completed
    ensures var r := Run(env, s, events).value;
            && (forall l | MadeBy(r, env.user, l) :: l in r.t.links <==> l in r.lost)
            && (forall l | l in r.lost :: l in r.t.links && r.t.links[l] == None)
  {
    InitHolds(env, s);
    RunKeepsInv(env, s, events);
  }

  // ---- both conditions are needed ----

  ghost predicate NeverOverlaps(env: Env) {
    forall s, events {:trigger Run(env, s, events)} | Init(env, s) && Run(env, s, events).Some? ::
      forall a, b | IsLive(Run(env, s, events).value, a) && IsLive(Run(env, s, events).value, b) :: a == b
  }

  function Start(env: Env): State {
    State(0, Tables({env.user}, map[], map[], map[], map[]),
          Request(Some(env.user), Some(env.user), 0, Pending, None, None, 0), map[], map[], {})
  }

  lemma {:induction false} RunOneMore(env: Env, s: State, events: seq<Event>, e: Event)
    requires Run(env, s, events).Some?
    ensures Run(env, s, events + [e]) == Apply(env, Run(env, s, events).value, e)
    decreases |events|
  {
    if events == [] {
      assert events + [e] == [e] && [e][1..] == [];
    } else {
      assert (events + [e])[0] == events[0] && (events + [e])[1..] == events[1..] + [e];
      RunOneMore(env, Apply(env, s, events[0]).value, events[1..], e);
    }
  }

  /** An attempt begins and claims. */
  lemma TakeUp(env: Env, s: State, events: seq<Event>, a: nat)
    returns (longer: seq<Event>, target: Id)
    requires Run(env, s, events).Some?
    requires var r := Run(env, s, events).value;
             a !in r.attempts && r.request.deadline <= r.now && Claimable(r.request, r.now)
    ensures Run(env, s, longer).Some?
    ensures var r, next := Run(env, s, events).value, Run(env, s, longer).value;
            && next == r.(request := Claimed(r.request, a, r.now), attempts := next.attempts)
            && next.attempts == r.attempts[a := Working(target, r.now + LEASE, 0, {}, {})]
  {
    var r := Run(env, s, events).value;
    RunOneMore(env, s, events, Begin(a, env.user));
    var begun := events + [Begin(a, env.user)];
    RunOneMore(env, s, begun, Claim(a));
    longer := begun + [Claim(a)];
    target := EffectiveUser(r.request, env.user);
    assert Run(env, s, longer).value.attempts == r.attempts[a := Working(target, r.now + LEASE, 0, {}, {})];
  }

  lemma Overlap(env: Env, s: State, events: seq<Event>, a: nat, b: nat)
    requires Init(env, s) && Run(env, s, events).Some? && a != b
    requires IsLive(Run(env, s, events).value, a) && IsLive(Run(env, s, events).value, b)
    ensures !NeverOverlaps(env)
  {
  }

  /** A throw before the claim resets the request although another attempt holds it. */
  lemma EarlyFaultsOverlap(env: Env)
    requires env.earlyFaults
    ensures !NeverOverlaps(env)
  {
    var s := Start(env);
    assert Run(env, s, []) == Some(s);
    var es, target := TakeUp(env, s, [], 1);
    RunOneMore(env, s, es, Begin(2, env.user));
    es := es + [Begin(2, env.user)];
    RunOneMore(env, s, es, Fault(2, false));
    es := es + [Fault(2, false)];
    assert IsLive(Run(env, s, es).value, 1);
    es, target := TakeUp(env, s, es, 3);
    Overlap(env, s, es, 1, 3);
  }

  /** An attempt that throws after its lease has run out resets the request of the attempt that took over. */
  lemma SlowAttemptsOverlap(env: Env)
    requires !env.timely
    ensures !NeverOverlaps(env)
  {
    var s := Start(env);
    assert Run(env, s, []) == Some(s);
    var es, target := TakeUp(env, s, [], 1);
    RunOneMore(env, s, es, Tick(LEASE + 1));
    es := es + [Tick(LEASE + 1)];
    es, target := TakeUp(env, s, es, 2);
    assert MayAct(env, Run(env, s, es).value, 1) && IsLive(Run(env, s, es).value, 2);
    RunOneMore(env, s, es, Fault(1, false));
    es := es + [Fault(1, false)];
    assert IsLive(Run(env, s, es).value, 2);
    es, target := TakeUp(env, s, es, 3);
    Overlap(env, s, es, 2, 3);
  }

  /** No two live attempts in any run, exactly when attempts keep to their lease and never throw before the claim. */
  lemma NeverOverlapsIff(env: Env)
    ensures NeverOverlaps(env) <==> env.timely && !env.earlyFaults
  {
    if env.timely && !env.earlyFaults {
      forall s, events {:trigger Run(env, s, events)} | Init(env, s) && Run(env, s, events).Some?
        ensures forall a, b | IsLive(Run(env, s, events).value, a) && IsLive(Run(env, s, events).value, b) :: a == b
      {
        AtMostOneLiveAttempt(env, s, events);
      }
    } else if env.earlyFaults {
      EarlyFaultsOverlap(env);
    } else {
      SlowAttemptsOverlap(env);
    }
  }

  // ---- a link that outlives its user ----

  lemma AdvanceInRun(env: Env, s: State, events: seq<Event>, a: nat)
    requires Run(env, s, events).Some?
    requires var r := Run(env, s, events).value; MayAct(env, r, a) && r.attempts[a].step < STEPS
    ensures Run(env, s, events + [Advance(a)]) == Some(AfterQuery(env, Run(env, s, events).value, a))
  {
    RunOneMore(env, s, events, Advance(a));
  }

  /** `n` queries in a row, none of which is the link query or the last one. */
  lemma {:induction false} AdvanceMany(env: Env, s: State, events: seq<Event>, a: nat, n: nat)
    returns (longer: seq<Event>)
    requires Run(env, s, events).Some?
    requires var r := Run(env, s, events).value;
             IsLive(r, a) && (r.attempts[a].step + n <= 2 || (r.attempts[a].step >= 3 && r.attempts[a].step + n <= 7))
    ensures Run(env, s, longer).Some?
    ensures var r, next := Run(env, s, events).value, Run(env, s, longer).value;
            && IsLive(next, a) && next.attempts[a].target == r.attempts[a].target
            && next.attempts[a].step == r.attempts[a].step + n
            && next.t.links == r.t.links && next.t.users == r.t.users && next.madeBy == r.madeBy
    decreases n
  {
    if n == 0 {
      longer := events;
    } else {
      AdvanceInRun(env, s, events, a);
      longer := AdvanceMany(env, s, events + [Advance(a)], a, n - 1);
    }
  }

  /** The link query has been made; a link added now is seen by no later query. */
  lemma FinishAfterLateLink(env: Env, s: State, before: seq<Event>) returns (events: seq<Event>)
    requires Run(env, s, before).Some?
    requires var r := Run(env, s, before).value;
             && IsLive(r, 1) && r.attempts[1].step == 3 && r.attempts[1].target == env.user
             && "l" in r.t.links && r.t.links["l"] == Some(env.user) && MadeBy(r, env.user, "l")
    ensures Run(env, s, events).Some?
    ensures var r := Run(env, s, events).value;
            r.request.status == Completed && "l" in r.t.links && r.t.links["l"] == None && MadeBy(r, env.user, "l")
  {
    events := AdvanceMany(env, s, before, 1, 4);
    AdvanceInRun(env, s, events, 1);
    events := events + [Advance(1)];
    RunOneMore(env, s, events, Finish(1));
    events := events + [Finish(1)];
  }

  lemma LinkQueryMade(env: Env) returns (events: seq<Event>)
    ensures Run(env, Start(env), events).Some?
    ensures var r := Run(env, Start(env), events).value;
            && IsLive(r, 1) && r.attempts[1].step == 3 && r.attempts[1].target == env.user
            && r.t.links == map[] && r.madeBy == map[] && env.user in r.t.users
  {
    var s := Start(env);
    assert Run(env, s, []) == Some(s);
    var target;
    events, target := TakeUp(env, s, [], 1);
    events := AdvanceMany(env, s, events, 1, 2);
    InitHolds(env, s);
    RunKeepsInv(env, s, events);
    AdvanceInRun(env, s, events, 1);
    events := events + [Advance(1)];
  }

  /** The user adds a link between the link query and the last query: it survives, without an owner. */
  lemma LateLinkSurvives(env: Env) returns (events: seq<Event>)
    requires env.lateLinks
    ensures Run(env, Start(env), events).Some?
    ensures var r := Run(env, Start(env), events).value;
            r.request.status == Completed && "l" in r.t.links && r.t.links["l"] == None && MadeBy(r, env.user, "l")
  {
    var s := Start(env);
    events := LinkQueryMade(env);
    var r := Run(env, s, events).value;
    AddToLateKeeps(r.attempts, "l");
    RunOneMore(env, s, events, AddLink("l", env.user));
    events := FinishAfterLateLink(env, s, events + [AddLink("l", env.user)]);
  }

  // ---- exactly when none does ----

  ghost predicate NoLinkOf(s: State, u: Id) {
    forall l | l in s.t.links :: !MadeBy(s, u, l)
  }

  /** In no run a completed request leaves a link that the user has made. */
  ghost predicate NothingSurvives(env: Env) {
    forall s, events {:trigger Run(env, s, events)} | Init(env, s) && Run(env, s, events).Some? ::
      Run(env, s, events).value.request.status == Completed ==> NoLinkOf(Run(env, s, events).value, env.user)
  }

  /** Past any link query, and without the user's row, the user has no links. */
  ghost predicate Clean(env: Env, s: State) {
    Makers(env, s) && (PastLinkQuery(s) || env.user !in s.t.users ==> NoLinkOf(s, env.user))
  }

  lemma AddLinkKeepsClean(env: Env, s: State, link: Id, maker: Id)
    requires !env.lateLinks && Clean(env, s) && Apply(env, s, AddLink(link, maker)).Some?
    ensures Clean(env, Apply(env, s, AddLink(link, maker)).value)
  {
    var next := Apply(env, s, AddLink(link, maker)).value;
    AddToLateKeeps(s.attempts, link);
    assert forall l, u | l != link :: MadeBy(next, u, l) == MadeBy(s, u, l);
    assert forall u :: MadeBy(next, u, link) == (maker == u);
    if PastLinkQuery(next) {
      var a :| a in next.attempts && next.attempts[a].Working? && next.attempts[a].step >= 3;
      assert s.attempts[a].Working? && s.attempts[a].step >= 3;
      assert PastLinkQuery(s);
    }
  }

  lemma AdvanceKeepsClean(env: Env, s: State, a: nat)
    requires Targets(env, s) && Clean(env, s) && MayAct(env, s, a) && s.attempts[a].step < STEPS
    ensures Clean(env, AfterQuery(env, s, a))
  {
    var w := s.attempts[a];
    var next := AfterQuery(env, s, a);
    AdvanceKeepsMakers(env, s, a);
    assert forall l, u :: MadeBy(next, u, l) == MadeBy(s, u, l);
    assert next.t.links.Keys <= s.t.links.Keys;
    if w.step == 2 && env.user in s.t.users {
      assert forall l | l in s.t.links && MadeBy(s, env.user, l) :: l in LinksOf(s.t, env.user);
      assert next.t.links.Keys == s.t.links.Keys - LinksOf(s.t, env.user);
    } else if w.step >= 3 {
      assert PastLinkQuery(s);
    } else if w.step < 2 && PastLinkQuery(next) {
      var b :| b in next.attempts && next.attempts[b].Working? && next.attempts[b].step >= 3;
      assert b != a && s.attempts[b] == next.attempts[b];
      assert PastLinkQuery(s);
    }
  }

  lemma OtherEventKeepsClean(env: Env, s: State, e: Event)
    requires Clean(env, s) && Apply(env, s, e).Some? && !e.AddLink? && !e.Advance?
    ensures Clean(env, Apply(env, s, e).value)
  {
    var next := Apply(env, s, e).value;
    assert next.t.links == s.t.links && next.madeBy == s.madeBy;
    assert forall l :: MadeBy(next, env.user, l) == MadeBy(s, env.user, l);
    if PastLinkQuery(next) {
      var b :| b in next.attempts && next.attempts[b].Working? && next.attempts[b].step >= 3;
      assert s.attempts[b] == next.attempts[b];
      assert PastLinkQuery(s);
    }
  }

  lemma {:induction false} RunKeepsClean(env: Env, s: State, events: seq<Event>)
    requires !env.lateLinks && Targets(env, s) && Clean(env, s) && Run(env, s, events).Some?
    ensures Targets(env, Run(env, s, events).value) && Clean(env, Run(env, s, events).value)
    decreases |events|
  {
    if events != [] {
      var e := events[0];
      EventKeepsTargets(env, s, e);
      if e.AddLink? {
        AddLinkKeepsClean(env, s, e.link, e.maker);
      } else if e.Advance? {
        AdvanceKeepsClean(env, s, e.a);
      } else {
        OtherEventKeepsClean(env, s, e);
      }
      RunKeepsClean(env, Apply(env, s, e).value, events[1..]);
    }
  }

  /**
   Whatever overlaps, throws or crashes: a completed request leaves no link of the user, if and only if
   the user adds none while an attempt is past its link query.
   */
  lemma NothingSurvivesIff(env: Env)
    ensures NothingSurvives(env) <==> !env.lateLinks
  {
    if env.lateLinks {
      var events := LateLinkSurvives(env);
      assert Init(env, Start(env));
      assert Run(env, Start(env), events).Some?;
    } else {
      forall s, events {:trigger Run(env, s, events)} | Init(env, s) && Run(env, s, events).Some?
        ensures Run(env, s, events).value.request.status == Completed ==> NoLinkOf(Run(env, s, events).value, env.user)
      {
        InitHolds(env, s);
        RunKeepsClean(env, s, events);
      }
    }
  }

  // ---- the worker's method, when nothing interleaves ----

  const MAX_RETRIES: int := 3

  /** The retry count of a payload: a finite number, a text that parses to a number, or neither. */
  datatype RetryCount = Number(value: real) | Text(parsed: Option<int>) | Neither

  /** Truncates toward zero, and never goes below zero. */
  function PayloadRetryCount(count: RetryCount): (r: int)
    ensures r >= 0
    ensures count.Number? && count.value >= 0.0 ==> r as real <= count.value < r as real + 1.0
    ensures count.Number? && count.value < 0.0 ==> r == 0
    ensures count.Text? && count.parsed.Some? ==> r >= count.parsed.value && (r == 0 || r == count.parsed.value)
    ensures count == Neither || count == Text(None) ==> r == 0
  {
    match count
    case Number(value) => if value < 0.0 then 0 else value.Floor
    case Text(Some(n)) => if n < 0 then 0 else n
    case _ => 0
  }

  class DeletionWorker {
    var now: int
    var request: Option<Request>
    const db: Database

    constructor (db: Database)
      ensures this.db == db
    {
      this.db := db;
    }

    /** `auditWorks`: whether the audit entry that follows the erasure can be written. */
    method ProcessMessage(a: nat, payloadUser: Id, count: RetryCount, auditWorks: bool) returns (thrown: bool)
      requires ForeignKeys(db.Contents())
      modifies this`request, db
      ensures old(request).None? || now < old(request).value.deadline || !Claimable(old(request).value, now) ==>
                !thrown && request == old(request) && db.Contents() == old(db.Contents())
      ensures old(request).Some? && old(request).value.deadline <= now && Claimable(old(request).value, now) ==>
                var r := old(request).value;
                var u := EffectiveUser(r, payloadUser);
                var status := if auditWorks then Completed
                              else if PayloadRetryCount(count) >= MAX_RETRIES then Failed else Pending;
                && thrown == !auditWorks
                && db.Contents() == Erase(old(db.Contents()), u)
                && var ended := Ended(Claimed(r, a, now), status);
                   request == Some(ended.(userId := if r.userId == Some(u) then None else r.userId))
    {
      if request.None? {
        return false;
      }
      var r := request.value;
      var target := EffectiveUser(r, payloadUser);
      if now < r.deadline {
        return false;
      }
      if !(r.status == Pending || (r.status == Processing && (r.lease.None? || r.lease.value < now))) {
        return false;
      }
      r := r.(status := Processing, lease := Some(now + LEASE), owner := Some(a), attemptCount := r.attemptCount + 1);
      request := Some(r);
      db.DeleteUserData(target);
      if r.userId == Some(target) {
        r := r.(userId := None);
      }
      if auditWorks {
        r := r.(status := Completed, lease := None, owner := None);
      } else {
        var status := if PayloadRetryCount(count) >= MAX_RETRIES then Failed else Pending;
        r := r.(status := status, lease := None, owner := None);
      }
      request := Some(r);
      thrown := !auditWorks;
    }
  }
}
