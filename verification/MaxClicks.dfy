/**
 Max-click enforcement through the cache, for one limited link.

 The database path counts `clicks + pending`; a cache hit counts `cached + pending`.  A populate
 reads the row, then the pending counter, then writes the cache, with an await between each; a
 worker batch commits, then increments the cache and drains side by side, and may crash in between.
 */
module MaxClicks {
  import opened Wrappers
  import opened RedirectCache
  import opened Validator
  import opened PendingClicks

  /** applyPendingClicksForEnforcement: only a link with a limit has pending clicks added. */
  function ForEnforcement(link: Link, pending: nat): Link {
    if link.maxClicks.None? then link else link.(clicksCount := link.clicksCount + pending)
  }

  /** The verdict on a link read with `count` clicks, once the pending clicks are read. */
  function VerdictAt(link: Link, count: nat, pending: nat, now: int, bypassPassword: bool): Verdict {
    ValidateLink(ForEnforcement(link.(clicksCount := count), pending), now, bypassPassword)
  }

  /**
   The click count on its way into the cache, or in it.  `missed` are clicks that reached the database
   but not this copy; `over` are clicks it holds beyond its row: the pending clicks it absorbed, and
   the batches that its row held already but that were still to be pushed.
   */
  datatype Copy = Copy(count: nat, over: nat, missed: nat)

  /** A populate in flight, before and after it has read the pending clicks. */
  datatype Reader = GotRow(copy: Copy) | GotPending(copy: Copy)

  /** `committed`: batches in the database but not yet in the cache; `draining`: those still to be drained. */
  datatype State = State(
    clicks: nat,
    pending: nat,
    cached: Option<Copy>,
    readers: seq<Reader>,
    committed: seq<nat>,
    draining: seq<nat>)

  datatype Event =
    | Reserve(n: nat)
    | ReadRow
    | ReadPending(i: nat)
    | SetLink(i: nat)
    | Commit(n: nat)
    | Push(i: nat)
    | LosePush(i: nat)
    | Drain(i: nat)
    | LoseDrain(i: nat)
    | DropCached
    | ExpirePending

  function Without<T>(s: seq<T>, i: nat): seq<T>
    requires i < |s|
  {
    s[..i] + s[i + 1..]
  }

  function Sum(s: seq<nat>): nat {
    if s == [] then 0 else s[0] + Sum(s[1..])
  }

  lemma {:induction false} SumWithout(s: seq<nat>, i: nat)
    requires i < |s|
    ensures Sum(s) == Sum(Without(s, i)) + s[i]
  {
    if i > 0 {
      SumWithout(s[1..], i - 1);
      assert Without(s, i) == [s[0]] + Without(s[1..], i - 1);
    } else {
      assert Without(s, 0) == s[1..];
    }
  }

  lemma {:induction false} SumAppend(s: seq<nat>, n: nat)
    ensures Sum(s + [n]) == Sum(s) + n
  {
    if s == [] {
      assert s + [n] == [n];
    } else {
      SumAppend(s[1..], n);
      assert (s + [n])[1..] == s[1..] + [n];
    }
  }

  function Pushed(c: Option<Copy>, n: nat): Option<Copy> {
    if c.Some? then Some(c.value.(count := c.value.count + n)) else None
  }

  function Missed(c: Option<Copy>, n: nat): Option<Copy> {
    if c.Some? then Some(c.value.(missed := c.value.missed + n)) else None
  }

  /** `n` clicks reach the database past every populate in flight. */
  function Overtake(readers: seq<Reader>, n: nat): (r: seq<Reader>)
    ensures |r| == |readers|
    ensures forall i :: 0 <= i < |r| ==>
              r[i] == readers[i].(copy := readers[i].copy.(missed := readers[i].copy.missed + n))
  {
    seq(|readers|, i requires 0 <= i < |readers| =>
      readers[i].(copy := readers[i].copy.(missed := readers[i].copy.missed + n)))
  }

  function Apply(s: State, e: Event): Option<State> {
    match e
    case Reserve(n) => Some(s.(pending := s.pending + n))
    case ReadRow => Some(s.(readers := s.readers + [GotRow(Copy(s.clicks, Sum(s.committed), 0))]))
    case ReadPending(i) =>
      if i < |s.readers| && s.readers[i].GotRow? then
        var c := s.readers[i].copy;
        Some(s.(readers := s.readers[i := GotPending(Copy(c.count + s.pending, c.over + s.pending, c.missed))]))
      else None
    case SetLink(i) =>
      if i < |s.readers| && s.readers[i].GotPending? then
        Some(s.(cached := Some(s.readers[i].copy), readers := Without(s.readers, i)))
      else None
    case Commit(n) => Some(s.(clicks := s.clicks + n, committed := s.committed + [n], draining := s.draining + [n]))
    case Push(i) =>
      if i < |s.committed| then
        var n := s.committed[i];
        Some(s.(cached := Pushed(s.cached, n), readers := Overtake(s.readers, n), committed := Without(s.committed, i)))
      else None
    case LosePush(i) =>
      if i < |s.committed| then
        var n := s.committed[i];
        Some(s.(cached := Missed(s.cached, n), readers := Overtake(s.readers, n), committed := Without(s.committed, i)))
      else None
    case Drain(i) =>
      if i < |s.draining| then
        Some(s.(pending := Drained(s.pending, s.draining[i]), draining := Without(s.draining, i)))
      else None
    case LoseDrain(i) =>
      if i < |s.draining| then Some(s.(draining := Without(s.draining, i))) else None
    case DropCached => Some(s.(cached := None))
    case ExpirePending => Some(s.(pending := 0))
  }

  /**
   What can happen in a run: a cache hit between the commit of a batch and its cache increment, an
   increment while a populate is in flight, and an increment that is lost.
   */
  datatype Env = Env(hitsInBetween: bool, overtakes: bool, losses: bool)

  const ANY: Env := Env(true, true, true)

  predicate Allowed(env: Env, s: State, e: Event) {
    && (e.LosePush? ==> env.losses)
    && (e.Push? || e.LosePush? ==> env.overtakes || s.readers == [])
  }

  /** Whether a cache hit can come now. */
  predicate CanHit(env: Env, s: State) {
    s.cached.Some? && (env.hitsInBetween || s.committed == [])
  }

  function Init(clicks: nat): State {
    State(clicks, 0, None, [], [], [])
  }

  function Run(env: Env, s: State, events: seq<Event>): Option<State>
    decreases |events|
  {
    if events == [] then Some(s)
    else if !Allowed(env, s, events[0]) then None
    else
      match Apply(s, events[0])
      case None => None
      case Some(t) => Run(env, t, events[1..])
  }

  // ---- what every run keeps ----

  /** What a copy lacks is on its way to it or has missed it. */
  ghost predicate Exact(s: State, c: Copy) {
    s.clicks + c.over == c.count + Sum(s.committed) + c.missed
  }

  ghost predicate Inv(s: State) {
    && (s.cached.Some? ==> Exact(s, s.cached.value))
    && (forall i :: 0 <= i < |s.readers| ==> Exact(s, s.readers[i].copy))
  }

  lemma LeavingKeepsInv(s: State, i: nat, push: bool)
    requires Inv(s) && i < |s.committed|
    ensures Inv(Apply(s, if push then Push(i) else LosePush(i)).value)
  {
    SumWithout(s.committed, i);
    assert forall j :: 0 <= j < |s.readers| ==> Exact(s, s.readers[j].copy);
  }

  lemma StepKeepsInv(s: State, e: Event)
    requires Inv(s) && Apply(s, e).Some?
    ensures Inv(Apply(s, e).value)
  {
    match e
    case Commit(n) => SumAppend(s.committed, n);
    case Push(i) => LeavingKeepsInv(s, i, true);
    case LosePush(i) => LeavingKeepsInv(s, i, false);
    case ReadPending(i) => assert Exact(s, s.readers[i].copy);
    case SetLink(i) => assert Exact(s, s.readers[i].copy);
    case _ =>
  }

  lemma {:induction false} RunKeepsInv(env: Env, s: State, events: seq<Event>)
    requires Inv(s) && Run(env, s, events).Some?
    ensures Inv(Run(env, s, events).value)
    decreases |events|
  {
    if events != [] {
      StepKeepsInv(s, events[0]);
      RunKeepsInv(env, Apply(s, events[0]).value, events[1..]);
    }
  }

  /** The verdicts of the cache path and the database path at this state, whatever pending count both read. */
  predicate Loosens(s: State, link: Link, pending: nat, now: int, bypassPassword: bool) {
    && s.cached.Some?
    && VerdictAt(link, s.clicks, pending, now, bypassPassword) == Verdict.MaxClicks
    && VerdictAt(link, s.cached.value.count, pending, now, bypassPassword) != Verdict.MaxClicks
  }

  predicate Tightens(s: State, link: Link, pending: nat, now: int, bypassPassword: bool) {
    && s.cached.Some?
    && VerdictAt(link, s.cached.value.count, pending, now, bypassPassword) == Verdict.MaxClicks
    && VerdictAt(link, s.clicks, pending, now, bypassPassword) != Verdict.MaxClicks
  }

  /** A link that only its limit can close. */
  predicate Limited(link: Link, limit: nat) {
    && link.isActive && !link.isBanned && link.expiresAt.None? && link.passwordHash.None?
    && link.maxClicks == Some(limit)
  }

  /**
   In every reachable state: the cache lets through a click that the database path rejects, for some
   limit, exactly if more clicks are between commit and increment or went past the cached entry than
   it holds beyond its row; and it rejects one that the database path lets through exactly if fewer are.
   */
  lemma CacheDiffersIff(env: Env, clicks: nat, events: seq<Event>)
    requires Run(env, Init(clicks), events).Some?
    requires Run(env, Init(clicks), events).value.cached.Some?
    ensures var t := Run(env, Init(clicks), events).value;
            && ((exists link, pending, now, bypass :: Loosens(t, link, pending, now, bypass)) <==>
                t.cached.value.over < Sum(t.committed) + t.cached.value.missed)
            && ((exists link, pending, now, bypass :: Tightens(t, link, pending, now, bypass)) <==>
                t.cached.value.over > Sum(t.committed) + t.cached.value.missed)
  {
    RunKeepsInv(env, Init(clicks), events);
    var t := Run(env, Init(clicks), events).value;
    if t.cached.value.count < t.clicks {
      assert Loosens(t, Link("", true, false, None, Some(t.clicks), 0, None), 0, 0, false);
    }
    if t.clicks < t.cached.value.count {
      assert Tightens(t, Link("", true, false, None, Some(t.cached.value.count), 0, None), 0, 0, false);
    }
  }

  // ---- when the cache never loosens a limit ----

  ghost predicate NeverLoosens(env: Env, limit: nat) {
    forall clicks, events, link: Link, pending, now, bypass ::
      && Run(env, Init(clicks), events).Some? && CanHit(env, Run(env, Init(clicks), events).value)
      && link.maxClicks == Some(limit)
      ==> !Loosens(Run(env, Init(clicks), events).value, link, pending, now, bypass)
  }

  ghost predicate NothingMissed(s: State) {
    && (s.cached.Some? ==> s.cached.value.missed == 0)
    && (forall i :: 0 <= i < |s.readers| ==> s.readers[i].copy.missed == 0)
  }

  lemma StepMissesNothing(env: Env, s: State, e: Event)
    requires !env.overtakes && !env.losses && NothingMissed(s) && Allowed(env, s, e) && Apply(s, e).Some?
    ensures NothingMissed(Apply(s, e).value)
  {
    match e
    case SetLink(i) => assert s.readers[i].copy.missed == 0;
    case _ =>
  }

  lemma {:induction false} RunMissesNothing(env: Env, s: State, events: seq<Event>)
    requires !env.overtakes && !env.losses && NothingMissed(s) && Run(env, s, events).Some?
    ensures NothingMissed(Run(env, s, events).value)
    decreases |events|
  {
    if events != [] {
      StepMissesNothing(env, s, events[0]);
      RunMissesNothing(env, Apply(s, events[0]).value, events[1..]);
    }
  }

  lemma CalmRunNeverLoosens(clicks: nat, events: seq<Event>)
    requires Run(Env(false, false, false), Init(clicks), events).Some?
    requires CanHit(Env(false, false, false), Run(Env(false, false, false), Init(clicks), events).value)
    ensures var t := Run(Env(false, false, false), Init(clicks), events).value; t.clicks <= t.cached.value.count
  {
    var env := Env(false, false, false);
    RunKeepsInv(env, Init(clicks), events);
    RunMissesNothing(env, Init(clicks), events);
  }

  lemma RunThree(env: Env, s: State, a: Event, b: Event, c: Event)
    requires Allowed(env, s, a) && Apply(s, a).Some?
    requires Allowed(env, Apply(s, a).value, b) && Apply(Apply(s, a).value, b).Some?
    requires Allowed(env, Apply(Apply(s, a).value, b).value, c)
    ensures Run(env, s, [a, b, c]) == Apply(Apply(Apply(s, a).value, b).value, c)
  {
    var t := Apply(s, a).value;
    var u := Apply(t, b).value;
    assert [a, b, c][1..] == [b, c] && [b, c][1..] == [c] && [c][1..] == [];
    assert Run(env, t, [b, c]) == Run(env, u, [c]);
    assert Run(env, u, [c]) == Apply(u, c);
  }

  lemma {:induction false} RunConcat(env: Env, s: State, before: seq<Event>, after: seq<Event>)
    requires Run(env, s, before).Some?
    ensures Run(env, s, before + after) == Run(env, Run(env, s, before).value, after)
    decreases |before|
  {
    if before == [] {
      assert before + after == after;
    } else {
      assert (before + after)[1..] == before[1..] + after;
      RunConcat(env, Apply(s, before[0]).value, before[1..], after);
    }
  }

  const POPULATE := [ReadRow, ReadPending(0), SetLink(0)]

  lemma PopulateRun(env: Env, s: State)
    requires s.readers == []
    ensures Run(env, s, POPULATE) ==
            Some(s.(cached := Some(Copy(s.clicks + s.pending, Sum(s.committed) + s.pending, 0))))
  {
    var row, all := Copy(s.clicks, Sum(s.committed), 0), Copy(s.clicks + s.pending, Sum(s.committed) + s.pending, 0);
    var t := s.(readers := [GotRow(row)]);
    assert s.readers + [GotRow(row)] == t.readers;
    assert t.readers[0 := GotPending(all)] == [GotPending(all)];
    assert Apply(t, ReadPending(0)) == Some(s.(readers := [GotPending(all)]));
    assert Without([GotPending(all)], 0) == s.readers;
    RunThree(env, s, ReadRow, ReadPending(0), SetLink(0));
  }

  lemma CommitOne(s: State)
    requires s.committed == [] && s.draining == []
    ensures Apply(s, Commit(1)) == Some(s.(clicks := s.clicks + 1, committed := [1], draining := [1]))
  {
    assert s.committed + [1] == [1];
  }

  /** A hit that comes between commit and increment. */
  lemma HitInBetween(env: Env, n: nat)
    ensures Run(env, Init(n), POPULATE + [Commit(1)]) == Some(State(n + 1, 0, Some(Copy(n, 0, 0)), [], [1], [1]))
  {
    var s := State(n, 0, Some(Copy(n, 0, 0)), [], [], []);
    PopulateRun(env, Init(n));
    RunConcat(env, Init(n), POPULATE, [Commit(1)]);
    assert [Commit(1)][1..] == [];
    CommitOne(s);
  }

  /** An increment that is lost. */
  lemma LostIncrement(env: Env, n: nat)
    requires env.losses
    ensures Run(env, Init(n), POPULATE + [Commit(1)] + [LosePush(0)]) ==
            Some(State(n + 1, 0, Some(Copy(n, 0, 1)), [], [], [1]))
  {
    HitInBetween(env, n);
    RunConcat(env, Init(n), POPULATE + [Commit(1)], [LosePush(0)]);
    assert [LosePush(0)][1..] == [];
    var s := State(n + 1, 0, Some(Copy(n, 0, 0)), [], [1], [1]);
    assert Without([1], 0) == [] && Overtake([], 1) == [];
    assert Apply(s, LosePush(0)) == Some(State(n + 1, 0, Some(Copy(n, 0, 1)), [], [], [1]));
  }

  /** A batch that is committed and pushed while a populate holds the row as it was before. */
  lemma OvertakenRead(env: Env, n: nat)
    requires env.overtakes
    ensures Run(env, Init(n), [ReadRow, Commit(1), Push(0)]) ==
            Some(State(n + 1, 0, None, [GotRow(Copy(n, 0, 1))], [], [1]))
  {
    var t := Init(n).(readers := [GotRow(Copy(n, 0, 0))]);
    var u := State(n + 1, 0, None, t.readers, [1], [1]);
    assert Init(n).readers + [GotRow(Copy(n, 0, 0))] == t.readers;
    CommitOne(t);
    assert Overtake(u.readers, 1) == [GotRow(Copy(n, 0, 1))] && Without([1], 0) == [];
    RunThree(env, Init(n), ReadRow, Commit(1), Push(0));
  }

  lemma OvertakenWrite(env: Env, n: nat)
    ensures Run(env, State(n + 1, 0, None, [GotRow(Copy(n, 0, 1))], [], [1]), [Drain(0), ReadPending(0), SetLink(0)]) ==
            Some(State(n + 1, 0, Some(Copy(n, 0, 1)), [], [], []))
  {
    var s := State(n + 1, 0, None, [GotRow(Copy(n, 0, 1))], [], [1]);
    var t := s.(draining := []);
    assert Without([1], 0) == [] && Apply(s, Drain(0)) == Some(t);
    var u := t.(readers := [GotPending(Copy(n, 0, 1))]);
    assert t.readers[0 := GotPending(Copy(n, 0, 1))] == u.readers;
    assert Without(u.readers, 0) == [];
    RunThree(env, s, Drain(0), ReadPending(0), SetLink(0));
  }

  lemma OvertakenPopulate(env: Env, n: nat)
    requires env.overtakes
    ensures Run(env, Init(n), [ReadRow, Commit(1), Push(0)] + [Drain(0), ReadPending(0), SetLink(0)]) ==
            Some(State(n + 1, 0, Some(Copy(n, 0, 1)), [], [], []))
  {
    OvertakenRead(env, n);
    OvertakenWrite(env, n);
    RunConcat(env, Init(n), [ReadRow, Commit(1), Push(0)], [Drain(0), ReadPending(0), SetLink(0)]);
  }

  /** Each of the three is enough to let one click too many through, at every limit. */
  lemma SomeRunLoosens(env: Env, limit: nat, link: Link) returns (events: seq<Event>)
    requires limit > 0 && Limited(link, limit) && env != Env(false, false, false)
    ensures Run(env, Init(limit - 1), events).Some?
    ensures var t := Run(env, Init(limit - 1), events).value;
            && CanHit(env, t) && Loosens(t, link, 0, 0, false)
            && VerdictAt(link, t.cached.value.count, 0, 0, false) == Verdict.Valid
  {
    if env.hitsInBetween {
      events := POPULATE + [Commit(1)];
      HitInBetween(env, limit - 1);
    } else if env.losses {
      events := POPULATE + [Commit(1)] + [LosePush(0)];
      LostIncrement(env, limit - 1);
    } else {
      events := [ReadRow, Commit(1), Push(0)] + [Drain(0), ReadPending(0), SetLink(0)];
      OvertakenPopulate(env, limit - 1);
    }
  }

  /**
   Over all runs, and whatever pending count is read: a link that the database path rejects as
   exhausted is rejected on every cache hit, if and only if no hit comes between the commit of a batch
   and its cache increment, no increment comes while a populate is in flight, and none is lost.
   */
  lemma NeverLoosensIff(env: Env, limit: nat)
    ensures NeverLoosens(env, limit) <==> limit == 0 || env == Env(false, false, false)
  {
    if limit > 0 && env != Env(false, false, false) {
      var link := Link("", true, false, None, Some(limit), 0, None);
      var events := SomeRunLoosens(env, limit, link);
      assert Run(env, Init(limit - 1), events).Some?;
    } else if limit > 0 {
      forall clicks, events | Run(env, Init(clicks), events).Some? && CanHit(env, Run(env, Init(clicks), events).value)
        ensures var t := Run(env, Init(clicks), events).value; t.clicks <= t.cached.value.count
      {
        CalmRunNeverLoosens(clicks, events);
      }
    }
  }

  // ---- populates and batches as atomic steps ----

  datatype Atomic =
    | AReserve(n: nat)
    | APopulate
    | ABatch(n: nat)
    | ADrop
    | AExpire

  function Expand(a: Atomic): seq<Event> {
    match a
    case AReserve(n) => [Reserve(n)]
    case APopulate => POPULATE
    case ABatch(n) => [Commit(n), Push(0), Drain(0)]
    case ADrop => [DropCached]
    case AExpire => [ExpirePending]
  }

  /** The pending count that the current entry swallowed when it was populated. */
  function Absorbed(absorbed: nat, s: State, a: Atomic): nat {
    if a.APopulate? then s.pending else absorbed
  }

  ghost predicate Quiet(s: State, absorbed: nat) {
    && s.readers == [] && s.committed == [] && s.draining == []
    && (s.cached.Some? ==> s.cached.value.count == s.clicks + absorbed)
  }

  /** An atomic step keeps the cached count at exactly the database count plus what it absorbed. */
  lemma AtomicStepKeepsQuiet(s: State, absorbed: nat, a: Atomic)
    requires Quiet(s, absorbed)
    ensures Run(ANY, s, Expand(a)).Some?
    ensures Quiet(Run(ANY, s, Expand(a)).value, Absorbed(absorbed, s, a))
  {
    match a
    case APopulate => PopulateRun(ANY, s);
    case ABatch(n) => BatchKeepsQuiet(s, absorbed, n);
    case AReserve(n) => assert [Reserve(n)][1..] == [];
    case ADrop => assert [DropCached][1..] == [];
    case AExpire => assert [ExpirePending][1..] == [];
  }

  lemma BatchKeepsQuiet(s: State, absorbed: nat, n: nat)
    requires Quiet(s, absorbed)
    ensures var run := Run(ANY, s, [Commit(n), Push(0), Drain(0)]); run.Some? && Quiet(run.value, absorbed)
  {
    RunThree(ANY, s, Commit(n), Push(0), Drain(0));
    assert Without([n], 0) == [];
  }

  datatype Outcome = Outcome(state: State, absorbed: nat)

  function RunAtomic(s: State, absorbed: nat, steps: seq<Atomic>): Option<Outcome>
    decreases |steps|
  {
    if steps == [] then Some(Outcome(s, absorbed)) else
      match Run(ANY, s, Expand(steps[0]))
      case None => None
      case Some(t) => RunAtomic(t, Absorbed(absorbed, s, steps[0]), steps[1..])
  }

  /**
   With atomic populates and batches, every run ends with the cached count equal to `clicks + absorbed`:
   the cache never loosens the limit, and it agrees with the database exactly when the populate saw no
   pending clicks.
   */
  lemma {:induction false} AtomicRunsAreExact(s: State, absorbed: nat, steps: seq<Atomic>)
    requires Quiet(s, absorbed)
    ensures RunAtomic(s, absorbed, steps).Some?
    ensures var o := RunAtomic(s, absorbed, steps).value;
            && Quiet(o.state, o.absorbed)
            && (o.state.cached.Some? ==>
                  && o.state.clicks <= o.state.cached.value.count
                  && (o.state.cached.value.count == o.state.clicks <==> o.absorbed == 0))
    decreases |steps|
  {
    if steps != [] {
      AtomicStepKeepsQuiet(s, absorbed, steps[0]);
      AtomicRunsAreExact(Run(ANY, s, Expand(steps[0])).value, Absorbed(absorbed, s, steps[0]), steps[1..]);
    }
  }

  /**
   The populate stores `clicks + pending` and a hit adds `pending` again: at every limit, and with any
   pending clicks below it, the cache can reject what the database path lets through.
   */
  lemma AbsorbedClicksTighten(limit: nat, pending: nat, link: Link)
    requires 0 < pending < limit && Limited(link, limit)
    ensures var o := RunAtomic(Init(limit - 1 - pending), 0, [AReserve(pending), APopulate]);
            && o.Some? && o.value.state.pending == pending
            && Tightens(o.value.state, link, pending, 0, false)
            && VerdictAt(link, o.value.state.clicks, pending, 0, false) == Verdict.Valid
  {
    var s0 := Init(limit - 1 - pending);
    var s1 := s0.(pending := pending);
    assert [Reserve(pending)][1..] == [];
    assert Run(ANY, s0, Expand(AReserve(pending))) == Some(s1);
    PopulateRun(ANY, s1);
    var s2 := Run(ANY, s1, Expand(APopulate)).value;
    var steps := [AReserve(pending), APopulate];
    assert steps[1..] == [APopulate] && [APopulate][1..] == [];
    assert RunAtomic(s1, 0, [APopulate]) == RunAtomic(s2, pending, []);
  }

  /** A cache increment followed by a drain of the same batch never lowers `cached + pending`. */
  lemma PushThenDrainNeverLowers(cached: nat, pending: nat, n: nat)
    ensures cached + n + Drained(pending, n) >= cached + pending
    ensures cached + n + Drained(pending, n) == cached + pending <==> n <= pending
  {
  }
}
