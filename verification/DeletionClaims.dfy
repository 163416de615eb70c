/**
 When the deletion worker takes up a request, and that one it takes up can be completed
 (processMessage of apps/worker/src/workers/deletion-stream.worker.ts).
 */
module DeletionClaims {
  import opened Wrappers
  import opened UserErasure
  import opened DeletionRuns

  // ---- when an attempt may work ----

  /** Pending, or processing under no lease or one that has run out. */
  predicate IsFree(q: Request, now: int) {
    q.status == Pending || (q.status == Processing && (q.lease == None || q.lease.value < now))
  }

  /**
   An attempt takes up a request if and only if the deadline has passed and the request is free; it then
   has a lease of a quarter of an hour.  Otherwise it is over, and the request is as it was.
   */
  lemma WorksIff(env: Env, s: State, a: nat, payloadUser: Id)
    requires a !in s.attempts
    ensures var begun := Apply(env, s, Begin(a, payloadUser));
            && begun.Some? && a in begun.value.attempts && begun.value.request == s.request
            && (s.now < s.request.deadline <==> begun.value.attempts[a].Over?)
    ensures var r := Run(env, s, [Begin(a, payloadUser), Claim(a)]);
            && (r.Some? <==> s.request.deadline <= s.now)
            && (r.Some? ==>
                  && a in r.value.attempts
                  && (if IsFree(s.request, s.now)
                      then TookUp(r.value, a, s.request, s.now + 900000)
                      else r.value.attempts[a].Over? && r.value.request == s.request))
  {
    BeginClaim(env, s, a, payloadUser);
  }

  predicate TookUp(s: State, a: nat, q: Request, lease: int)
    requires a in s.attempts
  {
    && s.attempts[a].Working? && s.attempts[a].lease == lease && s.attempts[a].step == 0
    && s.request.status == Processing && s.request.lease == Some(lease) && s.request.owner == Some(a)
    && s.request.attemptCount == q.attemptCount + 1
  }

  lemma BeginClaim(env: Env, s: State, a: nat, payloadUser: Id)
    requires a !in s.attempts
    ensures Run(env, s, [Begin(a, payloadUser), Claim(a)]) ==
            Apply(env, Apply(env, s, Begin(a, payloadUser)).value, Claim(a))
  {
    var events := [Begin(a, payloadUser), Claim(a)];
    assert events[1..] == [Claim(a)] && [Claim(a)][1..] == [];
    var begun := Apply(env, s, events[0]).value;
    assert Run(env, begun, [Claim(a)]) ==
           match Apply(env, begun, Claim(a)) { case None => None case Some(next) => Run(env, next, []) };
  }

  // ---- nothing before the deadline ----

  /** No attempt has come further than to see that it is too early, and nothing is erased. */
  ghost predicate Untouched(s: State, r: State) {
    && (forall a | a in r.attempts :: r.attempts[a].Over?)
    && r.request == s.request && s.t.users <= r.t.users
    && (forall l | l in s.t.links :: l in r.t.links && r.t.links[l] == s.t.links[l])
    && (forall k | k in s.t.auth :: k in r.t.auth && r.t.auth[k] == s.t.auth[k])
  }

  lemma EventTouchesNothing(env: Env, s: State, e: Event)
    requires (forall a | a in s.attempts :: s.attempts[a].Over?) && Apply(env, s, e).Some?
    requires Apply(env, s, e).value.now < s.request.deadline
    ensures Untouched(s, Apply(env, s, e).value)
  {
    if e.AddLink? {
      AddToLateKeeps(s.attempts, e.link);
    }
  }

  /** Before the deadline nothing is claimed and nothing is erased. */
  lemma {:induction false} NothingBeforeTheDeadline(env: Env, s: State, events: seq<Event>)
    requires Run(env, s, events).Some? && forall a | a in s.attempts :: s.attempts[a].Over?
    ensures s.now <= Run(env, s, events).value.now
    ensures Run(env, s, events).value.now < s.request.deadline ==> Untouched(s, Run(env, s, events).value)
    decreases |events|
  {
    if events != [] {
      var next := Apply(env, s, events[0]).value;
      TimeGoesOn(env, next, events[1..]);
      if Run(env, s, events).value.now < s.request.deadline {
        EventTouchesNothing(env, s, events[0]);
        NothingBeforeTheDeadline(env, next, events[1..]);
      }
    }
  }

  lemma {:induction false} TimeGoesOn(env: Env, s: State, events: seq<Event>)
    requires Run(env, s, events).Some?
    ensures s.now <= Run(env, s, events).value.now
    decreases |events|
  {
    if events != [] {
      TimeGoesOn(env, Apply(env, s, events[0]).value, events[1..]);
    }
  }

  // ---- a request that may be claimed can be completed ----

  /** The remaining queries of a live attempt, one after the other. */
  lemma {:induction false} AdvanceToTheEnd(env: Env, s: State, events: seq<Event>, a: nat) returns (longer: seq<Event>)
    requires Run(env, s, events).Some?
    requires var r := Run(env, s, events).value; IsLive(r, a) && r.attempts[a].step <= STEPS
    ensures Run(env, s, longer).Some?
    ensures var next := Run(env, s, longer).value; IsLive(next, a) && next.attempts[a].step == STEPS
    decreases STEPS - Run(env, s, events).value.attempts[a].step
  {
    var r := Run(env, s, events).value;
    if r.attempts[a].step == STEPS {
      longer := events;
    } else {
      AdvanceInRun(env, s, events, a);
      assert IsLive(AfterQuery(env, r, a), a);
      longer := AdvanceToTheEnd(env, s, events + [Advance(a)], a);
    }
  }

  /**
   Whatever has happened before, throws, crashes and overlaps included: a free request past its
   deadline can be completed by one attempt, and then no row refers to the user.
   */
  lemma CanBeCompleted(env: Env, s: State, before: seq<Event>, a: nat) returns (events: seq<Event>)
    requires Init(env, s) && Run(env, s, before).Some? && a !in Run(env, s, before).value.attempts
    requires var r := Run(env, s, before).value;
             r.request.deadline <= r.now && IsFree(r.request, r.now)
    ensures Run(env, s, events).Some?
    ensures var r := Run(env, s, events).value;
            && r.request.status == Completed && env.user !in r.t.users
            && (forall l | l in r.t.links :: r.t.links[l] != Some(env.user))
            && (forall k | k in r.t.auth :: r.t.auth[k] != env.user)
  {
    var target;
    events, target := TakeUp(env, s, before, a);
    events := AdvanceToTheEnd(env, s, events, a);
    RunOneMore(env, s, events, Finish(a));
    events := events + [Finish(a)];
    CompletedMeansErased(env, s, events);
  }
}
