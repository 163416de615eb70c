/**
 The redirect cache of packages/redirect-domain/src/cache-service.ts over a Redis-like store.

 The clock counts whole seconds.  A store entry carries the second at which it expires; an
 expired entry may linger in the map, but no command sees it.
 */
module RedirectCache {
  import opened Wrappers

  const LINK_TTL: nat := 3600
  const NEGATIVE_TTL: nat := 300
  const BANNED_TTL: nat := 86400
  const LOCK_TTL: nat := 5

  /** The columns of a link that decide a redirect. */
  datatype Link = Link(
    id: string,
    isActive: bool,
    isBanned: bool,
    expiresAt: Option<int>,
    maxClicks: Option<nat>,
    clicksCount: nat,
    passwordHash: Option<string>)

  datatype Key =
    | LinkKey(code: string)
    | MetaKey(code: string)
    | NotFoundKey(code: string)
    | BannedKey(code: string)
    | LockKey(code: string)

  datatype Value =
    | LinkValue(link: Link, cachedAt: int)
    | Flag
    | Token(owner: nat)

  datatype Entry = Entry(value: Value, deadline: int)

  type Store = map<Key, Entry>

  datatype LinkState = LinkState(isNotFound: bool, isBanned: bool, link: Option<Link>)

  datatype Reason = NoReason | Ban | Deleted | NotFound

  // ---- the store's commands ----

  predicate Live(store: Store, now: int, key: Key) {
    key in store && now < store[key].deadline
  }

  function SetEx(store: Store, now: int, key: Key, ttl: nat, value: Value): Store {
    store[key := Entry(value, now + ttl)]
  }

  function Del(store: Store, keys: set<Key>): Store {
    store - keys
  }

  // ---- the service's commands, one short code at a time ----

  /** The cached link, unless it is missing, expired, or dropped for an early refresh. */
  function ReadLink(store: Store, now: int, code: string, refresh: bool): Option<Link> {
    var key := LinkKey(code);
    if Live(store, now, key) && store[key].value.LinkValue? && !refresh
    then Some(store[key].value.link)
    else None
  }

  function StoreLink(store: Store, now: int, code: string, link: Link): Store {
    SetEx(store, now, LinkKey(code), LINK_TTL, LinkValue(link, now))
  }

  function StoreNotFound(store: Store, now: int, code: string): Store {
    SetEx(store, now, NotFoundKey(code), NEGATIVE_TTL, Flag)
  }

  function StoreBanned(store: Store, now: int, code: string): Store {
    SetEx(store, now, BannedKey(code), BANNED_TTL, Flag)
  }

  function LinkKeys(code: string): set<Key> {
    {LinkKey(code), MetaKey(code), NotFoundKey(code), BannedKey(code)}
  }

  /** The Lua script: decode, add, and write back under the remaining TTL. */
  function StoreIncrement(store: Store, now: int, code: string, amount: nat): Store {
    var key := LinkKey(code);
    if Live(store, now, key) && store[key].value.LinkValue? then
      var LinkValue(link, cachedAt) := store[key].value;
      var ttl := store[key].deadline - now;
      var kept := if ttl < 1 then LINK_TTL else ttl;
      SetEx(store, now, key, kept, LinkValue(link.(clicksCount := link.clicksCount + amount), cachedAt))
    else
      store
  }

  /** At the whole-second clock the increment changes the count and nothing else. */
  lemma IncrementKeepsTheDeadline(store: Store, now: int, code: string, amount: nat)
    requires Live(store, now, LinkKey(code)) && store[LinkKey(code)].value.LinkValue?
    ensures var before := store[LinkKey(code)];
            var after := StoreIncrement(store, now, code, amount);
            && after.Keys == store.Keys
            && (forall k | k in store && k != LinkKey(code) :: after[k] == store[k])
            && after[LinkKey(code)] == before.(value := LinkValue(
                 before.value.link.(clicksCount := before.value.link.clicksCount + amount), before.value.cachedAt))
  {
    assert store[LinkKey(code)].deadline - now >= 1;
  }

  /** Near expiry: less than a tenth of the original lifetime remains. */
  predicate NearExpiry(cachedAt: int, now: int) {
    var remaining := if LINK_TTL - (now - cachedAt) < 0 then 0 else LINK_TTL - (now - cachedAt);
    cachedAt > 0 && remaining * 10 < LINK_TTL
  }

  /** Whether a read drops a cached link for an early refresh; `roll` is true one time in ten. */
  predicate Refreshes(store: Store, now: int, code: string, roll: bool) {
    var key := LinkKey(code);
    roll && Live(store, now, key) && store[key].value.LinkValue? && NearExpiry(store[key].value.cachedAt, now)
  }

  // ---- what a read finds after a write ----

  ghost predicate SameElsewhere(a: Store, b: Store, key: Key) {
    forall k: Key :: k != key ==> (k in a <==> k in b) && (k in a ==> a[k] == b[k])
  }

  /**
   A stored link is read back as it is for an hour, except that in the last 360 seconds a draw can drop
   it for an early refresh; afterwards it is gone.  No other key is touched.
   */
  lemma SetThenGet(store: Store, now: int, code: string, link: Link, t: int, roll: bool)
    requires 0 < now <= t
    ensures var after := StoreLink(store, now, code, link);
            && ReadLink(after, t, code, Refreshes(after, t, code, roll)) ==
                 (if t < now + 3600 && !(roll && now + 3240 < t) then Some(link) else None)
            && SameElsewhere(store, after, LinkKey(code))
  {
  }

  /** The negative flag stands for 300 seconds and the ban flag for a day; no other key is touched. */
  lemma FlagsLast(store: Store, now: int, code: string, t: int)
    ensures Live(StoreNotFound(store, now, code), t, NotFoundKey(code)) <==> t < now + 300
    ensures SameElsewhere(store, StoreNotFound(store, now, code), NotFoundKey(code))
    ensures Live(StoreBanned(store, now, code), t, BannedKey(code)) <==> t < now + 86400
    ensures SameElsewhere(store, StoreBanned(store, now, code), BannedKey(code))
  {
  }

  /** An incremented link is read back with its clicks added; a missing one is not made up. */
  lemma IncrementThenGet(store: Store, now: int, code: string, amount: nat)
    ensures var before, after := ReadLink(store, now, code, false), StoreIncrement(store, now, code, amount);
            && (before.Some? ==> ReadLink(after, now, code, false) ==
                                 Some(before.value.(clicksCount := before.value.clicksCount + amount)))
            && (before.None? ==> after == store)
            && SameElsewhere(store, after, LinkKey(code))
  {
  }

  /** The service object: its store is rewritten by every command. */
  class CacheService {
    var store: Store
    var now: int

    constructor (start: int)
      ensures store == map[] && now == start
    {
      store := map[];
      now := start;
    }

    method SetLink(code: string, link: Link)
      modifies this`store
      ensures store == StoreLink(old(store), now, code, link)
    {
      var entry := Entry(LinkValue(link, now), now + LINK_TTL);
      store := store[LinkKey(code) := entry];
    }

    method SetNotFound(code: string)
      modifies this`store
      ensures store == StoreNotFound(old(store), now, code)
    {
      store := store[NotFoundKey(code) := Entry(Flag, now + NEGATIVE_TTL)];
    }

    method SetBanned(code: string)
      modifies this`store
      ensures store == StoreBanned(old(store), now, code)
    {
      store := store[BannedKey(code) := Entry(Flag, now + BANNED_TTL)];
    }

    method InvalidateLink(code: string)
      modifies this`store
      ensures store == Del(old(store), LinkKeys(code))
    {
      store := store - {LinkKey(code)};
      store := store - {MetaKey(code)};
      store := store - {NotFoundKey(code)};
      store := store - {BannedKey(code)};
    }

    /** Every key of the code is gone, except the one flag that the reason asks for. */
    method InvalidateLinkAndQR(code: string, reason: Reason)
      modifies this`store
      ensures forall k: Key :: k in store && k.code == code && !k.LockKey? ==>
                (k == BannedKey(code) && reason == Ban) ||
                (k == NotFoundKey(code) && (reason == Deleted || reason == NotFound))
      ensures reason == Ban ==>
                BannedKey(code) in store && store[BannedKey(code)] == Entry(Flag, now + BANNED_TTL)
      ensures reason == Deleted || reason == NotFound ==>
                NotFoundKey(code) in store && store[NotFoundKey(code)] == Entry(Flag, now + NEGATIVE_TTL)
      ensures forall k: Key :: k.code != code || k.LockKey? ==>
                (k in store <==> k in old(store)) && (k in store ==> store[k] == old(store)[k])
    {
      InvalidateLink(code);
      if reason == Ban {
        SetBanned(code);
        return;
      }
      if reason == Deleted || reason == NotFound {
        SetNotFound(code);
      }
    }

    /** `roll` stands for the random draw: true one time in ten. */
    method GetLinkState(code: string, roll: bool) returns (state: LinkState)
      ensures state.isNotFound == Live(store, now, NotFoundKey(code))
      ensures state.isBanned == Live(store, now, BannedKey(code))
      ensures state.link == ReadLink(store, now, code, Refreshes(store, now, code, roll))
    {
      var notFound := NotFoundKey(code) in store && now < store[NotFoundKey(code)].deadline;
      var banned := BannedKey(code) in store && now < store[BannedKey(code)].deadline;
      var link := GetLink(code, roll);
      state := LinkState(notFound, banned, link);
    }

    method GetLink(code: string, roll: bool) returns (link: Option<Link>)
      ensures link == ReadLink(store, now, code, Refreshes(store, now, code, roll))
    {
      link := None;
      if LinkKey(code) in store && now < store[LinkKey(code)].deadline {
        match store[LinkKey(code)].value
        case LinkValue(cached, cachedAt) =>
          link := if NearExpiry(cachedAt, now) && roll then None else Some(cached);
        case _ =>
      }
    }

    method IncrementClicksCount(code: string, amount: nat) returns (count: Option<nat>)
      modifies this`store
      ensures store == StoreIncrement(old(store), now, code, amount)
      ensures count == match ReadLink(store, now, code, false)
                       case None => None
                       case Some(link) => Some(link.clicksCount)
    {
      count := None;
      var key := LinkKey(code);
      if key in store && now < store[key].deadline {
        match store[key].value
        case LinkValue(link, cachedAt) =>
          var next := link.(clicksCount := link.clicksCount + amount);
          var ttl := store[key].deadline - now;
          if ttl < 1 {
            ttl := LINK_TTL;
          }
          store := store[key := Entry(LinkValue(next, cachedAt), now + ttl)];
          count := Some(next.clicksCount);
        case _ =>
      }
    }
  }
}
