/**
 getLink and fetchWithStampedeProtection of packages/redirect-domain/src/fetcher.ts as one caller runs
 them when nothing interleaves, and the same reader of the ban protocol advanced on its own.
 */
module LinkFetcher {
  import opened Wrappers
  import opened RedirectCache
  import MaxClicks
  import Validator
  import BanProtocol

  /** applyPendingClicksForEnforcement. */
  function Enforced(link: Option<Link>, pending: nat): Option<Link> {
    if link.Some? then Some(MaxClicks.ForEnforcement(link.value, pending)) else None
  }

  /** The negative flag, the ban flag or a cached link answers the read. */
  predicate IsHit(store: Store, now: int, code: string, refresh: bool) {
    || Live(store, now, NotFoundKey(code))
    || Live(store, now, BannedKey(code))
    || ReadLink(store, now, code, refresh).Some?
  }

  /**
   What a caller gets: the flags come before the link, the link before the database; behind a foreign
   lock the cache is asked once more, with a draw of its own (`again`).
   */
  function Answer(store: Store, now: int, code: string, row: Option<Link>, pending: nat, refresh: bool, again: bool):
    Option<Link>
  {
    if Live(store, now, NotFoundKey(code)) then None
    else if Live(store, now, BannedKey(code)) then Some(BanProtocol.BANNED_LINK)
    else if IsHit(store, now, code, refresh) then Enforced(ReadLink(store, now, code, refresh), pending)
    else if Live(store, now, LockKey(code)) && ReadLink(store, now, code, again).Some?
    then Enforced(ReadLink(store, now, code, again), pending)
    else Enforced(row, pending)
  }

  /** What becomes of a link that a read found: only a limited one has its pending clicks added. */
  predicate CountsPending(found: Link, pending: nat, link: Link) {
    && link == found.(clicksCount := link.clicksCount)
    && link.clicksCount == found.clicksCount + match found.maxClicks case None => 0 case Some(_) => pending
  }

  /**
   The answer, case by case: nothing, the ban, or the link that the read found, with its pending clicks; and
   whether the database is asked for it.
   */
  lemma AnswerIs(store: Store, now: int, code: string, row: Option<Link>, pending: nat, refresh: bool, again: bool)
    ensures var answer := Answer(store, now, code, row, pending, refresh, again);
            var asked := Fetches(store, now, code, refresh, again);
            var hit, second := ReadLink(store, now, code, refresh), ReadLink(store, now, code, again);
            if Live(store, now, NotFoundKey(code)) then answer == None && !asked
            else if Live(store, now, BannedKey(code))
            then answer.Some? && answer.value.isActive && answer.value.isBanned && !asked
            else if hit.Some? then answer.Some? && CountsPending(hit.value, pending, answer.value) && !asked
            else if Live(store, now, LockKey(code)) && second.Some?
            then answer.Some? && CountsPending(second.value, pending, answer.value) && !asked
            else if row.Some? then answer.Some? && CountsPending(row.value, pending, answer.value) && asked
            else answer == None && asked
  {
  }

  /** A cached link that has reached its limit, pending clicks included, is never answered as a valid one. */
  lemma ExhaustedHitIsNotValid(
      store: Store, now: int, code: string, row: Option<Link>, pending: nat, refresh: bool, again: bool, limit: nat,
      bypassPassword: bool)
    requires var hit := ReadLink(store, now, code, refresh);
             hit.Some? && hit.value.maxClicks == Some(limit) && 0 < limit <= hit.value.clicksCount + pending
    ensures var answer := Answer(store, now, code, row, pending, refresh, again);
            answer.Some? ==> Validator.ValidateLink(answer.value, now, bypassPassword) != Validator.Valid
  {
    AnswerIs(store, now, code, row, pending, refresh, again);
    var answer := Answer(store, now, code, row, pending, refresh, again);
    if answer.Some? {
      Validator.ValidIff(answer.value, now, bypassPassword);
    }
  }

  /** A hit gets the verdict that the click model gives the cached copy. */
  lemma VerdictOfHit(
      store: Store, now: int, code: string, row: Option<Link>, pending: nat, refresh: bool, again: bool,
      bypassPassword: bool)
    requires !Live(store, now, NotFoundKey(code)) && !Live(store, now, BannedKey(code))
    requires ReadLink(store, now, code, refresh).Some?
    ensures var answer := Answer(store, now, code, row, pending, refresh, again);
            var hit := ReadLink(store, now, code, refresh);
            && answer.Some?
            && Validator.ValidateLink(answer.value, now, bypassPassword) ==
               MaxClicks.VerdictAt(hit.value, hit.value.clicksCount, pending, now, bypassPassword)
  {
  }

  /** What the populate writes. */
  function Filled(store: Store, now: int, code: string, row: Option<Link>): Store {
    if row.Some? then StoreLink(store, now, code, row.value) else StoreNotFound(store, now, code)
  }

  /** What it leaves in the store: on a miss with the lock free, the row or the negative flag, and no lock. */
  function Left(store: Store, now: int, code: string, row: Option<Link>, pending: nat, refresh: bool): Store {
    if IsHit(store, now, code, refresh) || Live(store, now, LockKey(code)) then store
    else Del(Filled(store, now, code, Enforced(row, pending)), {LockKey(code)})
  }

  /**
   A hit, or a foreign lock, leaves the store alone.  A miss caches what it answers for an hour, or that
   there is no link for 300 seconds, and leaves no lock; no other key is touched.
   */
  lemma MissIsCached(store: Store, now: int, code: string, row: Option<Link>, pending: nat, refresh: bool, t: int)
    requires 0 < now <= t
    ensures var left := Left(store, now, code, row, pending, refresh);
            if Live(store, now, NotFoundKey(code)) || Live(store, now, BannedKey(code))
               || ReadLink(store, now, code, refresh).Some? || Live(store, now, LockKey(code))
            then left == store
            else
              && (row.Some? && t < now + 3600 ==>
                    ReadLink(left, t, code, false) == Answer(store, now, code, row, pending, refresh, false))
              && (row.Some? && now + 3600 <= t ==> ReadLink(left, t, code, false) == None)
              && (row.None? ==> (Live(left, t, NotFoundKey(code)) <==> t < now + 300))
              && LockKey(code) !in left
              && SameElsewhere(Del(store, {LockKey(code)}), left,
                               if row.Some? then LinkKey(code) else NotFoundKey(code))
  {
  }

  /** The read needs the database. */
  predicate Fetches(store: Store, now: int, code: string, refresh: bool, again: bool) {
    !IsHit(store, now, code, refresh) && !(Live(store, now, LockKey(code)) && ReadLink(store, now, code, again).Some?)
  }

  /** A query that throws leaves nothing behind, and no lock of its own. */
  function Unlocked(store: Store, now: int, code: string): Store {
    if Live(store, now, LockKey(code)) then store else Del(store, {LockKey(code)})
  }

  class LinkFetcher {
    const cache: CacheService
    var row: Option<Link>
    var pending: nat

    constructor (cache: CacheService, row: Option<Link>)
      ensures this.cache == cache && this.row == row && pending == 0
    {
      this.cache, this.row, pending := cache, row, 0;
    }

    /** The row, with the pending clicks added where a limit is enforced; `works` is false where the query throws. */
    method FetchFromDatabase(works: bool) returns (threw: bool, link: Option<Link>)
      ensures threw == !works && link == if works then Enforced(row, pending) else None
    {
      if !works {
        return true, None;
      }
      if row.None? || row.value.maxClicks.None? {
        return false, row;
      }
      return false, Some(row.value.(clicksCount := row.value.clicksCount + pending));
    }

    /** A query that throws is tried once more, outside the lock. */
    method GetLink(code: string, owner: nat, roll: bool, rollAgain: bool, works: bool, worksAgain: bool)
      returns (threw: bool, link: Option<Link>)
      modifies cache
      ensures var store, now := old(cache.store), old(cache.now);
              var refresh, again := Refreshes(store, now, code, roll), Refreshes(store, now, code, rollAgain);
              && cache.now == now
              && if works || !Fetches(store, now, code, refresh, again) then
                   && !threw && link == Answer(store, now, code, row, pending, refresh, again)
                   && cache.store == Left(store, now, code, row, pending, refresh)
                 else
                   && threw == !worksAgain && link == (if worksAgain then Enforced(row, pending) else None)
                   && cache.store == Unlocked(store, now, code)
    {
      var state := cache.GetLinkState(code, roll);
      if state.isNotFound {
        return false, None;
      }
      if state.isBanned {
        return false, Some(BanProtocol.BANNED_LINK);
      }
      if state.link.Some? {
        return false, Enforced(state.link, pending);
      }
      threw, link := FetchWithStampedeProtection(code, owner, rollAgain, works);
      if threw {
        threw, link := FetchFromDatabase(worksAgain);
      }
    }

    /** The lock is released whether or not the query works. */
    method FetchWithStampedeProtection(code: string, owner: nat, roll: bool, works: bool)
      returns (threw: bool, link: Option<Link>)
      modifies cache
      ensures var store, now := old(cache.store), old(cache.now);
              var again := ReadLink(store, now, code, Refreshes(store, now, code, roll));
              var fetched := Enforced(row, pending);
              && cache.now == now
              && (if Live(store, now, LockKey(code)) then
                    && threw == (again.None? && !works) && cache.store == store
                    && link == (if again.Some? then Enforced(again, pending) else if works then fetched else None)
                  else
                    && threw == !works && link == (if works then fetched else None)
                    && cache.store == if !works then Unlocked(store, now, code)
                                      else Del(Filled(store, now, code, fetched), {LockKey(code)}))
    {
      ghost var store := cache.store;
      if !(LockKey(code) in cache.store && cache.now < cache.store[LockKey(code)].deadline) {
        cache.store := SetEx(cache.store, cache.now, LockKey(code), LOCK_TTL, Token(owner));
        threw, link := FetchFromDatabase(works);
        if !threw {
          if link.Some? {
            cache.SetLink(code, link.value);
          } else {
            cache.SetNotFound(code);
          }
        }
        if cache.store[LockKey(code)].value == Token(owner) && cache.now < cache.store[LockKey(code)].deadline {
          cache.store := Del(cache.store, {LockKey(code)});
        }
        return threw, link;
      }
      var cached := cache.GetLink(code, roll);
      if cached.Some? {
        return false, Enforced(cached, pending);
      }
      threw, link := FetchFromDatabase(works);
    }
  }

  // ---- the reader of the ban protocol, on its own ----

  /** The protocol leaves the pending clicks out of a cached link. */
  predicate SameButCount(a: Option<Link>, b: Option<Link>) {
    if a.Some? && b.Some? then a.value.(clicksCount := 0) == b.value.(clicksCount := 0) else a == b
  }

  function AdvanceAlone(env: BanProtocol.Env, s: BanProtocol.State, r: nat, draws: seq<bool>): (t: BanProtocol.State)
    requires r in s.readers
    ensures r in t.readers
    decreases |draws|
  {
    if draws == [] then s else AdvanceAlone(env, BanProtocol.AdvanceReader(env, s, r, draws[0]), r, draws[1..])
  }

  lemma {:induction false} AloneAppend(env: BanProtocol.Env, s: BanProtocol.State, r: nat, a: seq<bool>, b: seq<bool>)
    requires r in s.readers
    ensures AdvanceAlone(env, s, r, a + b) == AdvanceAlone(env, AdvanceAlone(env, s, r, a), r, b)
    decreases |a|
  {
    if a == [] {
      assert a + b == b;
    } else {
      assert (a + b)[0] == a[0] && (a + b)[1..] == a[1..] + b;
      AloneAppend(env, BanProtocol.AdvanceReader(env, s, r, a[0]), r, a[1..], b);
    }
  }

  /** Two steps in a row. */
  lemma TwoSteps(env: BanProtocol.Env, s: BanProtocol.State, r: nat, a: bool, b: bool)
    requires r in s.readers
    ensures AdvanceAlone(env, s, r, [a, b]) ==
            BanProtocol.AdvanceReader(env, BanProtocol.AdvanceReader(env, s, r, a), r, b)
  {
    var two, one := [a, b], [b];
    assert two[0] == a && two[1..] == one && one[0] == b && one[1..] == [];
    var s1 := BanProtocol.AdvanceReader(env, s, r, a);
    assert AdvanceAlone(env, s, r, two) == AdvanceAlone(env, s1, r, one);
    assert AdvanceAlone(env, s1, r, one) == AdvanceAlone(env, BanProtocol.AdvanceReader(env, s1, r, b), r, []);
  }

  lemma {:induction false} DoneStays(env: BanProtocol.Env, s: BanProtocol.State, r: nat, draws: seq<bool>)
    requires r in s.readers && s.readers[r].pc.Done?
    ensures var t := AdvanceAlone(env, s, r, draws); t.readers[r].pc == s.readers[r].pc && t.store == s.store
    decreases |draws|
  {
    if draws != [] {
      DoneStays(env, BanProtocol.AdvanceReader(env, s, r, draws[0]), r, draws[1..]);
    }
  }

  /** What a state says about one reader. */
  predicate Stands(s: BanProtocol.State, r: nat, pc: BanProtocol.Pc, store: Store, now: int, db: Option<Link>) {
    r in s.readers && s.readers[r].pc == pc && s.store == store && s.now == now && s.db == db
  }

  lemma Looks(env: BanProtocol.Env, s: BanProtocol.State, r: nat, refresh: bool)
    requires r in s.readers && s.readers[r].pc.LookNotFound?
    ensures Stands(AdvanceAlone(env, s, r, [refresh, refresh]), r,
                   BanProtocol.LookLink(Live(s.store, s.now, NotFoundKey(env.code)),
                                        Live(s.store, s.now, BannedKey(env.code))),
                   s.store, s.now, s.db)
  {
    TwoSteps(env, s, r, refresh, refresh);
  }

  /** Another holder has the lock. */
  lemma LockedOut(env: BanProtocol.Env, s: BanProtocol.State, r: nat, again: bool)
    requires r in s.readers && s.readers[r].pc.Waiting?
    ensures var t := AdvanceAlone(env, s, r, [again, again]);
            var cached := ReadLink(s.store, s.now, env.code, again);
            t.readers[r].pc == BanProtocol.Done(if cached.Some? then cached else s.db) && t.store == s.store
  {
    TwoSteps(env, s, r, again, again);
  }

  /** The lock is this reader's. */
  lemma Populates(env: BanProtocol.Env, s: BanProtocol.State, r: nat, again: bool)
    requires r in s.readers && s.readers[r].pc == BanProtocol.ReadDb(true)
    ensures Stands(AdvanceAlone(env, s, r, [again, again]), r, BanProtocol.Release(s.db),
                   Filled(s.store, s.now, env.code, s.db), s.now, s.db)
  {
    TwoSteps(env, s, r, again, again);
  }

  /** From a foreign lock on: two steps, and nothing more to do. */
  lemma LockedAlone(env: BanProtocol.Env, s: BanProtocol.State, r: nat, again: bool)
    requires r in s.readers && s.readers[r].pc.TryLock? && Live(s.store, s.now, LockKey(env.code))
    ensures var t := AdvanceAlone(env, BanProtocol.AdvanceReader(env, s, r, again), r, [again, again] + [false]);
            var cached := ReadLink(s.store, s.now, env.code, again);
            t.readers[r].pc == BanProtocol.Done(if cached.Some? then cached else s.db) && t.store == s.store
  {
    var s1 := BanProtocol.AdvanceReader(env, s, r, again);
    AloneAppend(env, s1, r, [again, again], [false]);
    LockedOut(env, s1, r, again);
    DoneStays(env, AdvanceAlone(env, s1, r, [again, again]), r, [false]);
  }

  lemma LockLeavesNoTrace(store: Store, now: int, code: string, row: Option<Link>, owner: nat)
    ensures var full := Filled(SetEx(store, now, LockKey(code), LOCK_TTL, Token(owner)), now, code, row);
            && Live(full, now, LockKey(code)) && full[LockKey(code)].value == Token(owner)
            && Del(full, {LockKey(code)}) == Del(Filled(store, now, code, row), {LockKey(code)})
  {
  }

  /** With the lock: read, populate and release. */
  lemma LockingAlone(env: BanProtocol.Env, s: BanProtocol.State, r: nat, again: bool)
    requires r in s.readers && s.readers[r].pc.TryLock? && !Live(s.store, s.now, LockKey(env.code))
    ensures var t := AdvanceAlone(env, BanProtocol.AdvanceReader(env, s, r, again), r, [again, again] + [false]);
            && t.readers[r].pc == BanProtocol.Done(s.db)
            && t.store == Del(Filled(s.store, s.now, env.code, s.db), {LockKey(env.code)})
  {
    var s1 := BanProtocol.AdvanceReader(env, s, r, again);
    AloneAppend(env, s1, r, [again, again], [false]);
    Populates(env, s1, r, again);
    LockLeavesNoTrace(s.store, s.now, env.code, s.db, r);
    Releases(env, AdvanceAlone(env, s1, r, [again, again]), r);
  }

  lemma Releases(env: BanProtocol.Env, s: BanProtocol.State, r: nat)
    requires r in s.readers && s.readers[r].pc.Release?
    ensures AdvanceAlone(env, s, r, [false]) == BanProtocol.AdvanceReader(env, s, r, false)
  {
    var one := [false];
    assert one[0] == false && one[1..] == [];
  }

  /** A reader of the protocol that runs alone does what the method does. */
  lemma ReaderAlone(env: BanProtocol.Env, s: BanProtocol.State, r: nat, row: Option<Link>, pending: nat,
                    refresh: bool, again: bool)
    requires r in s.readers && s.readers[r].pc.LookNotFound? && s.db == Enforced(row, pending)
    ensures var t := AdvanceAlone(env, s, r, [refresh, refresh] + ([refresh, again] + ([again, again] + [false])));
            && t.readers[r].pc.Done?
            && SameButCount(t.readers[r].pc.result, Answer(s.store, s.now, env.code, row, pending, refresh, again))
            && t.store == Left(s.store, s.now, env.code, row, pending, refresh)
  {
    var rest := [again, again] + [false];
    AloneAppend(env, s, r, [refresh, refresh], [refresh, again] + rest);
    Looks(env, s, r, refresh);
    var s2 := AdvanceAlone(env, s, r, [refresh, refresh]);
    AloneAppend(env, s2, r, [refresh, again], rest);
    TwoSteps(env, s2, r, refresh, again);
    LastLook(env, s2, r, s, row, pending, refresh, again, rest);
  }

  lemma LastLook(env: BanProtocol.Env, s2: BanProtocol.State, r: nat, s: BanProtocol.State, row: Option<Link>,
                 pending: nat, refresh: bool, again: bool, rest: seq<bool>)
    requires s.db == Enforced(row, pending) && rest == [again, again] + [false]
    requires Stands(s2, r, BanProtocol.LookLink(Live(s.store, s.now, NotFoundKey(env.code)),
                                                Live(s.store, s.now, BannedKey(env.code))), s.store, s.now, s.db)
    ensures var s3 := BanProtocol.AdvanceReader(env, s2, r, refresh);
            var t := AdvanceAlone(env, BanProtocol.AdvanceReader(env, s3, r, again), r, rest);
            && t.readers[r].pc.Done?
            && SameButCount(t.readers[r].pc.result, Answer(s.store, s.now, env.code, row, pending, refresh, again))
            && t.store == Left(s.store, s.now, env.code, row, pending, refresh)
  {
    var s3 := BanProtocol.AdvanceReader(env, s2, r, refresh);
    assert s3.store == s.store && s3.db == s.db && s3.now == s.now;
    if IsHit(s.store, s.now, env.code, refresh) {
      DoneStays(env, BanProtocol.AdvanceReader(env, s3, r, again), r, rest);
    } else if Live(s.store, s.now, LockKey(env.code)) {
      LockedAlone(env, s3, r, again);
    } else {
      LockingAlone(env, s3, r, again);
    }
  }
}
