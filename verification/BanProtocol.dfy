/**
 The cache-aside read protocol of packages/redirect-domain/src/fetcher.ts as a state machine.

 Every `await` is a step, so any number of readers, the click worker, invalidations and one ban
 interleave freely.  The question is what a late populate of a row read before the ban can do.
 */
module BanProtocol {
  import opened Wrappers
  import opened RedirectCache

  /**
   What the environment may do: how long one read may stay in flight, whether the write of the
   ban flag may fail (setBanned swallows its errors), and whether the code may be invalidated
   again once the ban has been committed.
   */
  datatype Env = Env(code: string, maxRead: nat, flagMayFail: bool, laterInvalidation: bool)

  /** Where a reader stands: the next command it will issue. */
  datatype Pc =
    | LookNotFound
    | LookBanned(notFound: bool)
    | LookLink(notFound: bool, banned: bool)
    | TryLock
    | ReadDb(locked: bool)
    | Populate(row: Option<Link>)
    | Release(row: Option<Link>)
    | Waiting
    | Fallback
    | Done(result: Option<Link>)
    | Failed

  /** `afterBan`: the read began after invalidateAndBan had returned. */
  datatype Reader = Reader(start: int, afterBan: bool, pc: Pc)

  datatype Phase =
    | Open
    | Committed(at: int, cleared: set<Key>)
    | Returned(at: int, flagAt: int)

  datatype State = State(now: int, store: Store, db: Option<Link>, readers: map<nat, Reader>, phase: Phase)

  datatype Event =
    | Tick(seconds: nat)
    | Begin(r: nat)
    | Advance(r: nat, refresh: bool)
    | Fault(r: nat, released: bool)
    | Increment(amount: nat)
    | Edit(row: Option<Link>)
    | MarkNotFound
    | Invalidate(keys: set<Key>)
    | CommitBan
    | ClearKey(key: Key)
    | SetFlag(ok: bool)

  const BANNED_LINK := Link("banned", true, true, None, None, 0, None)

  predicate InFlight(pc: Pc) {
    !pc.Done? && !pc.Failed?
  }

  predicate Harmless(row: Option<Link>) {
    row.Some? ==> row.value.isBanned
  }

  function Unlock(env: Env, s: State, r: nat): Store {
    var key := LockKey(env.code);
    if Live(s.store, s.now, key) && s.store[key].value == Token(r) then Del(s.store, {key}) else s.store
  }

  function At(s: State, r: nat, pc: Pc): State
    requires r in s.readers
  {
    s.(readers := s.readers[r := s.readers[r].(pc := pc)])
  }

  /** What a reader's next command writes to the store. */
  function Written(env: Env, s: State, r: nat, pc: Pc): Store {
    match pc
    case TryLock =>
      var key := LockKey(env.code);
      if Live(s.store, s.now, key) then s.store else SetEx(s.store, s.now, key, LOCK_TTL, Token(r))
    case Populate(row) =>
      (match row
       case Some(link) => StoreLink(s.store, s.now, env.code, link)
       case None => StoreNotFound(s.store, s.now, env.code))
    case Release(_) => Unlock(env, s, r)
    case _ => s.store
  }

  /** Where a reader stands after its next command: getLink, then fetchWithStampedeProtection. */
  function NextPc(env: Env, s: State, pc: Pc, refresh: bool): Pc {
    match pc
    case LookNotFound => LookBanned(Live(s.store, s.now, NotFoundKey(env.code)))
    case LookBanned(notFound) => LookLink(notFound, Live(s.store, s.now, BannedKey(env.code)))
    case LookLink(notFound, banned) =>
      var link := ReadLink(s.store, s.now, env.code, refresh);
      if notFound then Done(None)
      else if banned then Done(Some(BANNED_LINK))
      else if link.Some? then Done(link)
      else TryLock
    case TryLock => if Live(s.store, s.now, LockKey(env.code)) then Waiting else ReadDb(true)
    case ReadDb(locked) => if locked then Populate(s.db) else Done(s.db)
    case Populate(row) => Release(row)
    case Release(row) => Done(row)
    case Waiting =>
      var link := ReadLink(s.store, s.now, env.code, refresh);
      if link.Some? then Done(link) else ReadDb(false)
    case Fallback => Done(s.db)
    case Done(_) => pc
    case Failed => pc
  }

  function AdvanceReader(env: Env, s: State, r: nat, refresh: bool): State
    requires r in s.readers
  {
    var pc := s.readers[r].pc;
    At(s.(store := Written(env, s, r, pc)), r, NextPc(env, s, pc, refresh))
  }

  /** The state after an event, or None when the event cannot happen. */
  function Apply(env: Env, s: State, e: Event): Option<State> {
    match e
    case Tick(seconds) =>
      if forall r | r in s.readers && InFlight(s.readers[r].pc) :: s.now + seconds <= s.readers[r].start + env.maxRead
      then Some(s.(now := s.now + seconds)) else None
    case Begin(r) =>
      if r !in s.readers
      then Some(s.(readers := s.readers[r := Reader(s.now, s.phase.Returned?, LookNotFound)])) else None
    case Advance(r, refresh) =>
      if r in s.readers && InFlight(s.readers[r].pc)
      then Some(AdvanceReader(env, s, r, refresh)) else None
    case Fault(r, released) =>
      if r in s.readers && InFlight(s.readers[r].pc) then
        var store := if released then Unlock(env, s, r) else s.store;
        Some(At(s.(store := store), r, if s.readers[r].pc.Fallback? then Failed else Fallback))
      else None
    case Increment(amount) =>
      Some(s.(store := StoreIncrement(s.store, s.now, env.code, amount)))
    case Edit(row) =>
      if s.phase.Open? || Harmless(row) then Some(s.(db := row)) else None
    case MarkNotFound =>
      Some(s.(store := StoreNotFound(s.store, s.now, env.code)))
    case Invalidate(keys) =>
      if keys <= LinkKeys(env.code) && (s.phase.Open? || env.laterInvalidation)
      then Some(s.(store := Del(s.store, keys))) else None
    case CommitBan =>
      if s.phase.Open? && s.db.Some?
      then Some(s.(db := Some(s.db.value.(isBanned := true)), phase := Committed(s.now, {}))) else None
    case ClearKey(key) =>
      if s.phase.Committed? && key in LinkKeys(env.code)
      then Some(s.(store := Del(s.store, {key}), phase := s.phase.(cleared := s.phase.cleared + {key}))) else None
    case SetFlag(ok) =>
      if s.phase.Committed? && LinkKeys(env.code) <= s.phase.cleared && (ok || env.flagMayFail)
      then Some(s.(store := if ok then StoreBanned(s.store, s.now, env.code) else s.store,
                   phase := Returned(s.phase.at, s.now))) else None
  }

  function Init(row: Option<Link>): State {
    State(0, map[], row, map[], Open)
  }

  function Run(env: Env, row: Option<Link>, events: seq<Event>): Option<State> {
    if events == [] then Some(Init(row)) else
      match Run(env, row, events[..|events| - 1])
      case None => None
      case Some(s) => Apply(env, s, events[|events| - 1])
  }

  /** No read that began after invalidateAndBan returned has yielded an unbanned link. */
  ghost predicate BanHolds(s: State) {
    forall r | r in s.readers && s.readers[r].afterBan && s.readers[r].pc.Done? :: Harmless(s.readers[r].pc.result)
  }

  /** The ban holds in every state of every run. */
  ghost predicate BanIsPermanent(env: Env) {
    forall row, events {:trigger Run(env, row, events)} ::
      Run(env, row, events).Some? ==> BanHolds(Run(env, row, events).value)
  }

  predicate Assumptions(env: Env) {
    env.maxRead + LINK_TTL <= BANNED_TTL && !env.flagMayFail && !env.laterInvalidation
  }

  // ---- the invariant ----

  /** No cached unbanned link outlives `limit`. */
  ghost predicate StaleUntil(env: Env, store: Store, limit: int) {
    var key := LinkKey(env.code);
    key in store && store[key].value.LinkValue? && !store[key].value.link.isBanned ==> store[key].deadline <= limit
  }

  ghost predicate Timely(env: Env, s: State, x: Reader) {
    x.start <= s.now && (InFlight(x.pc) ==> s.now <= x.start + env.maxRead)
  }

  /** A row read before the ban is only in the hands of a reader that began before it. */
  ghost predicate OldHands(x: Reader, at: int) {
    (x.pc.Populate? || x.pc.Release?) && !Harmless(x.pc.row) ==> x.start <= at
  }

  /** A reader that began after the ban and got past the ban flag did so after the flag expired. */
  ghost predicate LateReader(s: State, x: Reader, flagAt: int) {
    x.afterBan ==>
      match x.pc
      case LookNotFound => true
      case LookBanned(_) => true
      case LookLink(_, banned) => banned || flagAt + BANNED_TTL <= s.now
      case TryLock => flagAt + BANNED_TTL <= s.now
      case Waiting => flagAt + BANNED_TTL <= s.now
      case ReadDb(_) => true
      case Fallback => true
      case Failed => true
      case Populate(row) => Harmless(row)
      case Release(row) => Harmless(row)
      case Done(result) => Harmless(result)
  }

  ghost predicate StoreInv(env: Env, s: State, store: Store) {
    && StaleUntil(env, store, s.now + LINK_TTL)
    && (!s.phase.Open? ==> StaleUntil(env, store, s.phase.at + env.maxRead + LINK_TTL))
    && (s.phase.Returned? ==>
          && BannedKey(env.code) in store
          && store[BannedKey(env.code)].deadline == s.phase.flagAt + BANNED_TTL)
  }

  ghost predicate ReaderInv(env: Env, s: State, x: Reader) {
    && Timely(env, s, x)
    && (x.afterBan ==> s.phase.Returned?)
    && (!s.phase.Open? ==> OldHands(x, s.phase.at))
    && (s.phase.Returned? ==> LateReader(s, x, s.phase.flagAt))
  }

  ghost predicate PhaseInv(s: State) {
    && (!s.phase.Open? ==> s.phase.at <= s.now && Harmless(s.db))
    && (s.phase.Returned? ==> s.phase.at <= s.phase.flagAt <= s.now)
  }

  ghost predicate Inv(env: Env, s: State) {
    && PhaseInv(s)
    && StoreInv(env, s, s.store)
    && (forall r | r in s.readers :: ReaderInv(env, s, s.readers[r]))
  }

  lemma AdvanceKeepsInv(env: Env, s: State, r: nat, refresh: bool)
    requires Assumptions(env) && Inv(env, s)
    requires r in s.readers && InFlight(s.readers[r].pc)
    ensures Inv(env, AdvanceReader(env, s, r, refresh))
  {
    var t := AdvanceReader(env, s, r, refresh);
    forall q | q in t.readers ensures ReaderInv(env, t, t.readers[q]) {
      assert ReaderInv(env, s, if q == r then s.readers[r].(pc := t.readers[r].pc) else s.readers[q]);
    }
  }

  lemma FaultKeepsInv(env: Env, s: State, r: nat, released: bool)
    requires Assumptions(env) && Inv(env, s) && Apply(env, s, Fault(r, released)).Some?
    ensures Inv(env, Apply(env, s, Fault(r, released)).value)
  {
    var t := Apply(env, s, Fault(r, released)).value;
    assert StoreInv(env, s, Unlock(env, s, r));
    forall q | q in t.readers ensures ReaderInv(env, t, t.readers[q]) {
      assert ReaderInv(env, s, s.readers[q]);
    }
  }

  /** The remaining events leave every reader where it stands. */
  lemma OtherKeepsInv(env: Env, s: State, e: Event)
    requires Assumptions(env) && Inv(env, s) && Apply(env, s, e).Some?
    requires !e.Advance? && !e.Fault? && !e.Begin?
    ensures Inv(env, Apply(env, s, e).value)
  {
    var t := Apply(env, s, e).value;
    assert PhaseInv(t);
    assert StoreInv(env, t, t.store) by {
      if Live(s.store, s.now, LinkKey(env.code)) && s.store[LinkKey(env.code)].value.LinkValue? && e.Increment? {
        IncrementKeepsTheDeadline(s.store, s.now, env.code, e.amount);
      }
    }
    forall r | r in t.readers ensures ReaderInv(env, t, t.readers[r]) {
      assert ReaderInv(env, s, s.readers[r]);
    }
  }

  lemma BeginKeepsInv(env: Env, s: State, r: nat)
    requires Inv(env, s) && Apply(env, s, Begin(r)).Some?
    ensures Inv(env, Apply(env, s, Begin(r)).value)
  {
    var t := Apply(env, s, Begin(r)).value;
    forall q | q in t.readers ensures ReaderInv(env, t, t.readers[q]) {
      assert q != r ==> ReaderInv(env, s, s.readers[q]);
    }
  }

  lemma {:induction false} RunKeepsInv(env: Env, row: Option<Link>, events: seq<Event>)
    requires Assumptions(env) && Run(env, row, events).Some?
    ensures Inv(env, Run(env, row, events).value)
    decreases |events|
  {
    if events != [] {
      RunKeepsInv(env, row, events[..|events| - 1]);
      var s := Run(env, row, events[..|events| - 1]).value;
      match events[|events| - 1]
      case Advance(r, refresh) => AdvanceKeepsInv(env, s, r, refresh);
      case Fault(r, released) => FaultKeepsInv(env, s, r, released);
      case Begin(r) => BeginKeepsInv(env, s, r);
      case _ => OtherKeepsInv(env, s, events[|events| - 1]);
    }
  }

  // ---- each assumption is needed: a run for each one dropped ----

  const CLEAN := Link("link", true, false, None, None, 0, None)

  lemma Extend(env: Env, row: Option<Link>, events: seq<Event>, e: Event)
    requires Run(env, row, events).Some?
    ensures Run(env, row, events + [e]) == Apply(env, Run(env, row, events).value, e)
  {
    assert (events + [e])[..|events + [e]| - 1] == events;
  }

  /** Reader 0 misses, locks, and reads the row. */
  lemma StaleRead(env: Env) returns (events: seq<Event>)
    ensures Run(env, Some(CLEAN), events) == Some(State(
              0,
              map[LockKey(env.code) := Entry(Token(0), LOCK_TTL)],
              Some(CLEAN),
              map[0 := Reader(0, false, Populate(Some(CLEAN)))],
              Open))
  {
    var row := Some(CLEAN);
    var lock := map[LockKey(env.code) := Entry(Token(0), LOCK_TTL)];
    events := [];
    Extend(env, row, events, Begin(0)); events := events + [Begin(0)];
    assert Run(env, row, events).value.readers == map[0 := Reader(0, false, LookNotFound)];
    Extend(env, row, events, Advance(0, false)); events := events + [Advance(0, false)];
    Extend(env, row, events, Advance(0, false)); events := events + [Advance(0, false)];
    Extend(env, row, events, Advance(0, false)); events := events + [Advance(0, false)];
    assert Run(env, row, events).value == State(0, map[], row, map[0 := Reader(0, false, TryLock)], Open);
    Extend(env, row, events, Advance(0, false)); events := events + [Advance(0, false)];
    assert Run(env, row, events).value == State(0, lock, row, map[0 := Reader(0, false, ReadDb(true))], Open);
    Extend(env, row, events, Advance(0, false)); events := events + [Advance(0, false)];
    assert Run(env, row, events).value == State(0, lock, row, map[0 := Reader(0, false, Populate(row))], Open);
  }

  /** Then the ban commits and clears every key. */
  lemma StaleReadThenBan(env: Env) returns (events: seq<Event>)
    ensures Run(env, Some(CLEAN), events) == Some(State(
              0,
              map[LockKey(env.code) := Entry(Token(0), LOCK_TTL)],
              Some(CLEAN.(isBanned := true)),
              map[0 := Reader(0, false, Populate(Some(CLEAN)))],
              Committed(0, LinkKeys(env.code))))
  {
    var row := Some(CLEAN);
    var lock := map[LockKey(env.code) := Entry(Token(0), LOCK_TTL)];
    events := StaleRead(env);
    Extend(env, row, events, CommitBan); events := events + [CommitBan];
    var link, meta, gone, banned :=
      LinkKey(env.code), MetaKey(env.code), NotFoundKey(env.code), BannedKey(env.code);
    ClearOne(env, row, events, lock, {}, link); events := events + [ClearKey(link)];
    ClearOne(env, row, events, lock, {link}, meta); events := events + [ClearKey(meta)];
    ClearOne(env, row, events, lock, {link, meta}, gone); events := events + [ClearKey(gone)];
    ClearOne(env, row, events, lock, {link, meta, gone}, banned); events := events + [ClearKey(banned)];
    assert {link, meta, gone} + {banned} == LinkKeys(env.code);
  }

  lemma ClearOne(env: Env, row: Option<Link>, events: seq<Event>, store: Store, cleared: set<Key>, key: Key)
    requires Run(env, row, events).Some? && Run(env, row, events).value.phase == Committed(0, cleared)
    requires Run(env, row, events).value.store == store && key !in store && key in LinkKeys(env.code)
    ensures Run(env, row, events + [ClearKey(key)]) ==
            Some(Run(env, row, events).value.(phase := Committed(0, cleared + {key})))
  {
    Extend(env, row, events, ClearKey(key));
    assert store - {key} == store;
  }

  /** The same run with the flag written: reader 0 still holds the old row. */
  lemma Flagged(env: Env) returns (events: seq<Event>)
    ensures Run(env, Some(CLEAN), events) == Some(State(
              0,
              map[LockKey(env.code) := Entry(Token(0), LOCK_TTL), BannedKey(env.code) := Entry(Flag, BANNED_TTL)],
              Some(CLEAN.(isBanned := true)),
              map[0 := Reader(0, false, Populate(Some(CLEAN)))],
              Returned(0, 0)))
  {
    events := StaleReadThenBan(env);
    Extend(env, Some(CLEAN), events, SetFlag(true));
    events := events + [SetFlag(true)];
  }

  /** A new reader that finds a live unbanned link and no live flag returns it. */
  lemma LateReadBreaksTheBan(env: Env, row: Option<Link>, events: seq<Event>)
    requires Run(env, row, events).Some?
    requires var s := Run(env, row, events).value;
             && s.phase.Returned? && 1 !in s.readers
             && !Live(s.store, s.now, NotFoundKey(env.code)) && !Live(s.store, s.now, BannedKey(env.code))
             && ReadLink(s.store, s.now, env.code, false) == Some(CLEAN)
    ensures !BanIsPermanent(env)
  {
    Extend(env, row, events, Begin(1));
    ThreeLookUps(env, row, events + [Begin(1)]);
  }

  lemma ThreeLookUps(env: Env, row: Option<Link>, es: seq<Event>)
    requires Run(env, row, es).Some?
    requires var s := Run(env, row, es).value;
             && 1 in s.readers && s.readers[1].afterBan && s.readers[1].pc.LookNotFound?
             && !Live(s.store, s.now, NotFoundKey(env.code)) && !Live(s.store, s.now, BannedKey(env.code))
             && ReadLink(s.store, s.now, env.code, false) == Some(CLEAN)
    ensures !BanIsPermanent(env)
  {
    var a := Advance(1, false);
    assert Run(env, row, es + [a]).value.readers[1].pc == LookBanned(false);
    assert Run(env, row, es + [a] + [a]).value.readers[1].pc == LookLink(false, false);
    assert Run(env, row, es + [a] + [a] + [a]).value.readers[1].pc == Done(Some(CLEAN));
    assert !BanHolds(Run(env, row, es + [a] + [a] + [a]).value);
  }

  /** Reader 0 populates and finishes; its lock has expired meanwhile. */
  lemma LatePopulate(env: Env, row: Option<Link>, events: seq<Event>, s: State)
    requires Run(env, row, events) == Some(s)
    requires 0 in s.readers && s.readers[0] == Reader(0, false, Populate(Some(CLEAN)))
    requires !Live(s.store, s.now, LockKey(env.code))
    ensures Run(env, row, events + [Advance(0, false)] + [Advance(0, false)]) ==
            Some(s.(store := StoreLink(s.store, s.now, env.code, CLEAN),
                    readers := s.readers[0 := Reader(0, false, Done(Some(CLEAN)))]))
  {
    var a := Advance(0, false);
    Extend(env, row, events, a);
    var t := s.(store := StoreLink(s.store, s.now, env.code, CLEAN),
                readers := s.readers[0 := Reader(0, false, Release(Some(CLEAN)))]);
    assert Run(env, row, events + [a]) == Some(t);
    Extend(env, row, events + [a], a);
    assert t.readers[0 := Reader(0, false, Done(Some(CLEAN)))] ==
           s.readers[0 := Reader(0, false, Done(Some(CLEAN)))];
  }

  /** A read that stays in flight past the gap outlives the flag: no bound above 82800 s is safe. */
  lemma LongReadsBreakTheBan(env: Env)
    requires env.maxRead + LINK_TTL > BANNED_TTL
    ensures !BanIsPermanent(env)
  {
    var row := Some(CLEAN);
    var gap := BANNED_TTL - LINK_TTL + 1;
    var es := Flagged(env);
    Extend(env, row, es, Tick(gap));
    var s := Run(env, row, es).value.(now := gap);
    es := es + [Tick(gap)];
    assert Run(env, row, es) == Some(s);
    LatePopulate(env, row, es, s);
    WaitForTheFlag(env, row, es + [Advance(0, false)] + [Advance(0, false)]);
  }

  /** One second short of the stale link's deadline the flag is gone and the link is not. */
  lemma WaitForTheFlag(env: Env, row: Option<Link>, es: seq<Event>)
    requires Run(env, row, es).Some?
    requires var s := Run(env, row, es).value;
             && s.phase == Returned(0, 0) && s.now == BANNED_TTL - LINK_TTL + 1
             && s.readers.Keys == {0} && s.readers[0].pc.Done?
             && NotFoundKey(env.code) !in s.store
             && BannedKey(env.code) in s.store && s.store[BannedKey(env.code)].deadline == BANNED_TTL
             && LinkKey(env.code) in s.store
             && s.store[LinkKey(env.code)] == Entry(LinkValue(CLEAN, s.now), s.now + LINK_TTL)
    ensures !BanIsPermanent(env)
  {
    Extend(env, row, es, Tick(LINK_TTL - 1));
    LateReadBreaksTheBan(env, row, es + [Tick(LINK_TTL - 1)]);
  }

  /** setBanned swallows a failed write; a stale populate then shows the link again. */
  lemma LostFlagBreaksTheBan(env: Env)
    requires env.flagMayFail
    ensures !BanIsPermanent(env)
  {
    var row := Some(CLEAN);
    var es := StaleReadThenBan(env);
    Extend(env, row, es, SetFlag(false)); es := es + [SetFlag(false)];
    Extend(env, row, es, Advance(0, false)); es := es + [Advance(0, false)];
    LateReadBreaksTheBan(env, row, es);
  }

  /** Another invalidation of the code removes the flag while the stale populate is still due. */
  lemma LaterInvalidationBreaksTheBan(env: Env)
    requires env.laterInvalidation
    ensures !BanIsPermanent(env)
  {
    var row := Some(CLEAN);
    var es := Flagged(env);
    var gone := Invalidate({BannedKey(env.code)});
    Extend(env, row, es, gone); es := es + [gone];
    Extend(env, row, es, Advance(0, false)); es := es + [Advance(0, false)];
    LateReadBreaksTheBan(env, row, es);
  }

  /**
   The ban is permanent for later readers exactly when a read lasts at most 86400 - 3600 seconds,
   the flag is written, and the code is not invalidated again.
   */
  lemma BanIsPermanentIff(env: Env)
    ensures BanIsPermanent(env) <==>
              env.maxRead + LINK_TTL <= BANNED_TTL && !env.flagMayFail && !env.laterInvalidation
  {
    if Assumptions(env) {
      forall row, events {:trigger Run(env, row, events)} | Run(env, row, events).Some?
        ensures BanHolds(Run(env, row, events).value)
      {
        RunKeepsInv(env, row, events);
        var s := Run(env, row, events).value;
        assert forall r | r in s.readers :: ReaderInv(env, s, s.readers[r]);
      }
    } else if env.flagMayFail {
      LostFlagBreaksTheBan(env);
    } else if env.laterInvalidation {
      LaterInvalidationBreaksTheBan(env);
    } else {
      LongReadsBreakTheBan(env);
    }
  }
}
