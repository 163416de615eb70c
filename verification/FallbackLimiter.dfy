/**
 InMemoryRateLimiter of packages/cache/src/rate-limiter-core.ts: fixed windows per key in a table of at
 most 10000 keys, with eviction of the oldest key and a periodic cleanup.
 */
module FallbackLimiter {
  import opened Wrappers

  const MAX_ENTRIES: nat := 10000

  datatype Entry = Entry(key: string, count: nat, resetAt: int)

  /** A JavaScript Map: entries in order of insertion, one for each key. */
  type Table = seq<Entry>

  predicate UniqueKeys(t: Table) {
    forall i, j :: 0 <= i < j < |t| ==> t[i].key != t[j].key
  }

  /** The position of the key, or the size of the table. */
  function Find(t: Table, key: string): (i: nat)
    ensures i <= |t| && (i < |t| ==> t[i].key == key)
    ensures forall j :: 0 <= j < i ==> t[j].key != key
  {
    if t == [] || t[0].key == key then 0 else 1 + Find(t[1..], key)
  }

  function Get(t: Table, key: string): Option<Entry> {
    if Find(t, key) < |t| then Some(t[Find(t, key)]) else None
  }

  /** Map.set: an existing key keeps its place. */
  function Set(t: Table, e: Entry): Table {
    if Find(t, e.key) < |t| then t[Find(t, e.key) := e] else t + [e]
  }

  predicate StartsWindow(t: Table, key: string, now: int) {
    Get(t, key).None? || Get(t, key).value.resetAt <= now
  }

  /** Room is made only for a new key, and not if the oldest key is the empty string. */
  function Evicted(t: Table, key: string): Table {
    if Get(t, key).None? && |t| >= MAX_ENTRIES && t[0].key != "" then t[1..] else t
  }

  function Checked(t: Table, now: int, key: string, durationMs: nat): Table {
    if StartsWindow(t, key, now) then Set(Evicted(t, key), Entry(key, 1, now + durationMs))
    else Set(t, Get(t, key).value.(count := Get(t, key).value.count + 1))
  }

  predicate Allows(t: Table, now: int, key: string, points: nat) {
    StartsWindow(t, key, now) || Get(t, key).value.count + 1 <= points
  }

  function Cleaned(t: Table, now: int): Table {
    if t == [] then [] else
      var rest := Cleaned(t[..|t| - 1], now);
      if t[|t| - 1].resetAt <= now then rest else rest + [t[|t| - 1]]
  }

  // ---- the table ----

  lemma GetIs(t: Table, i: nat)
    requires UniqueKeys(t) && i < |t|
    ensures Get(t, t[i].key) == Some(t[i])
  {
  }

  lemma EvictedGets(t: Table, key: string, other: string)
    requires UniqueKeys(t) && (Evicted(t, key) != t ==> t[0].key != other)
    ensures UniqueKeys(Evicted(t, key)) && Get(Evicted(t, key), other) == Get(t, other)
  {
    if Evicted(t, key) != t && Find(t, other) < |t| {
      assert t[1..][Find(t, other) - 1] == t[Find(t, other)];
      GetIs(t[1..], Find(t, other) - 1);
    }
  }

  lemma SetGets(t: Table, e: Entry, key: string)
    requires UniqueKeys(t)
    ensures UniqueKeys(Set(t, e))
    ensures Get(Set(t, e), key) == if key == e.key then Some(e) else Get(t, key)
    ensures |Set(t, e)| == |t| + if Get(t, e.key).None? then 1 else 0
  {
    var s := Set(t, e);
    assert UniqueKeys(s);
    if key == e.key {
      GetIs(s, Find(t, e.key));
    } else if Find(t, key) < |t| {
      assert s[Find(t, key)] == t[Find(t, key)];
      GetIs(s, Find(t, key));
    }
  }

  lemma LastDiffers(t: Table)
    requires UniqueKeys(t) && t != []
    ensures forall e | e in t[..|t| - 1] :: e.key != t[|t| - 1].key
  {
  }

  lemma {:induction false} CleanupGets(t: Table, now: int, key: string)
    requires UniqueKeys(t)
    ensures UniqueKeys(Cleaned(t, now)) && |Cleaned(t, now)| <= |t|
    ensures Get(Cleaned(t, now), key) ==
            if Get(t, key).Some? && Get(t, key).value.resetAt <= now then None else Get(t, key)
    ensures forall e | e in Cleaned(t, now) :: e in t
    decreases |t|
  {
    if t != [] {
      var before, last := t[..|t| - 1], t[|t| - 1];
      CleanupGets(before, now, key);
      var rest := Cleaned(before, now);
      LastDiffers(t);
      LastGets(before, last, key);
      LastGets(rest, last, key);
      assert t == before + [last];
    }
  }

  lemma LastGets(t: Table, last: Entry, key: string)
    requires UniqueKeys(t) && forall e | e in t :: e.key != last.key
    ensures UniqueKeys(t + [last])
    ensures Get(t + [last], key) == if key == last.key then Some(last) else Get(t, key)
  {
    var s := t + [last];
    if key == last.key {
      GetIs(s, |t|);
    } else if Find(t, key) < |t| {
      assert s[Find(t, key)] == t[Find(t, key)];
      GetIs(s, Find(t, key));
    }
  }

  // ---- the size of the table ----

  /** The key of a check, as the caller of the fallback builds it. */
  function FullKey(prefix: string, name: string): (key: string)
    ensures key != ""
  {
    prefix + ":" + name
  }

  datatype Event =
    | CheckOf(now: int, prefix: string, name: string, points: nat, durationMs: nat)
    | CleanupAt(now: int)

  function KeyOf(e: Event): string
    requires e.CheckOf?
  {
    FullKey(e.prefix, e.name)
  }

  function Apply(t: Table, e: Event): Table {
    match e
    case CheckOf(now, prefix, name, _, durationMs) => Checked(t, now, FullKey(prefix, name), durationMs)
    case CleanupAt(now) => Cleaned(t, now)
  }

  function Run(t: Table, events: seq<Event>): Table
    decreases |events|
  {
    if events == [] then t else Run(Apply(t, events[0]), events[1..])
  }

  ghost predicate Proper(t: Table) {
    UniqueKeys(t) && |t| <= MAX_ENTRIES && forall e | e in t :: e.key != ""
  }

  lemma ApplyKeepsProper(t: Table, e: Event)
    requires Proper(t)
    ensures Proper(Apply(t, e))
  {
    match e
    case CheckOf(now, prefix, name, points, durationMs) =>
      var key := FullKey(prefix, name);
      EvictedUnique(t, key);
      if StartsWindow(t, key, now) {
        SetKeepsProper(Evicted(t, key), Entry(key, 1, now + durationMs));
      } else {
        FoundKey(t, key);
        SetKeepsProper(t, Get(t, key).value.(count := Get(t, key).value.count + 1));
      }
    case CleanupAt(now) => CleanupGets(t, now, "");
  }

  lemma SetKeepsProper(t: Table, e: Entry)
    requires Proper(t) && e.key != "" && (Get(t, e.key).None? ==> |t| < MAX_ENTRIES)
    ensures Proper(Set(t, e))
  {
    SetGets(t, e, e.key);
    forall x | x in Set(t, e) ensures x.key != "" {
      assert x in t || x == e;
    }
  }

  lemma FoundKey(t: Table, key: string)
    requires Get(t, key).Some?
    ensures Get(t, key).value.key == key
  {
  }

  lemma EvictedUnique(t: Table, key: string)
    requires Proper(t)
    ensures UniqueKeys(Evicted(t, key)) && forall e | e in Evicted(t, key) :: e in t
    ensures Get(t, key).None? ==> |Evicted(t, key)| < MAX_ENTRIES && Get(Evicted(t, key), key).None?
    ensures Get(t, key).Some? ==> Evicted(t, key) == t
  {
    if Evicted(t, key) != t {
      assert t[0] in t;
      assert forall j :: 0 <= j < |t[1..]| ==> t[1..][j] == t[j + 1];
    } else if Get(t, key).None? && t != [] {
      assert t[0] in t;
    }
  }

  /** The table never outgrows its bound. */
  lemma {:induction false} TableIsBounded(t: Table, events: seq<Event>)
    requires Proper(t)
    ensures Proper(Run(t, events))
    decreases |events|
  {
    if events != [] {
      ApplyKeepsProper(t, events[0]);
      TableIsBounded(Apply(t, events[0]), events[1..]);
    }
  }

  /**
   A check gives its key a new window, or counts it in the running one.  It touches another key only to
   evict it: the first of 10000, for a key that has no entry.
   */
  lemma CheckTouches(t: Table, now: int, prefix: string, name: string, points: nat, durationMs: nat, other: string)
    requires Proper(t)
    ensures var r, key := Apply(t, CheckOf(now, prefix, name, points, durationMs)), FullKey(prefix, name);
            && (Get(t, key).None? || Get(t, key).value.resetAt <= now ==>
                  Get(r, key) == Some(Entry(key, 1, now + durationMs)))
            && (Get(t, key).Some? && now < Get(t, key).value.resetAt ==>
                  Get(r, key) == Some(Entry(key, Get(t, key).value.count + 1, Get(t, key).value.resetAt)))
            && (other != key ==>
                  Get(r, other) ==
                  if Get(t, key).None? && |t| == 10000 && other == t[0].key then None else Get(t, other))
  {
    var key := FullKey(prefix, name);
    EvictedUnique(t, key);
    if StartsWindow(t, key, now) {
      SetGets(Evicted(t, key), Entry(key, 1, now + durationMs), key);
      SetGets(Evicted(t, key), Entry(key, 1, now + durationMs), other);
      if Get(t, key).None? && |t| == 10000 {
        assert t[0] in t;
        FirstIsEvicted(t, key, other);
      }
    } else {
      FoundKey(t, key);
      SetGets(t, Get(t, key).value.(count := Get(t, key).value.count + 1), key);
      SetGets(t, Get(t, key).value.(count := Get(t, key).value.count + 1), other);
    }
  }

  lemma FirstIsEvicted(t: Table, key: string, other: string)
    requires UniqueKeys(t) && |t| == MAX_ENTRIES && t[0].key != "" && Get(t, key).None?
    ensures Get(Evicted(t, key), other) == if other == t[0].key then None else Get(t, other)
  {
    if other != t[0].key {
      EvictedGets(t, key, other);
    } else {
      assert forall j :: 0 <= j < |t[1..]| ==> t[1..][j] == t[j + 1];
    }
  }

  // ---- the limit of one key ----

  /** An allowed check, and the start of the window it was counted in. */
  datatype Hit = Hit(time: int, start: int)

  /** The table together with the allowed checks of one key, all made with the same limit. */
  datatype Tracked = Tracked(t: Table, now: int, log: seq<Hit>)

  datatype Limit = Limit(key: string, points: nat, durationMs: nat)

  /** Time does not run backwards, the key keeps its limit, and the key is not evicted. */
  predicate Fits(l: Limit, s: Tracked, e: Event) {
    && s.now <= e.now
    && (e.CheckOf? && KeyOf(e) == l.key ==> e.points == l.points && e.durationMs == l.durationMs)
    && (e.CheckOf? && Evicted(s.t, KeyOf(e)) != s.t ==> s.t[0].key != l.key)
  }

  function WindowStart(l: Limit, t: Table, now: int): int {
    if StartsWindow(t, l.key, now) then now else Get(t, l.key).value.resetAt - l.durationMs
  }

  function Track(l: Limit, s: Tracked, e: Event): Tracked {
    Tracked(Apply(s.t, e), e.now,
            if e.CheckOf? && KeyOf(e) == l.key && Allows(s.t, e.now, l.key, l.points)
            then s.log + [Hit(e.now, WindowStart(l, s.t, e.now))] else s.log)
  }

  predicate AllFit(l: Limit, s: Tracked, events: seq<Event>)
    decreases |events|
  {
    events == [] || (Fits(l, s, events[0]) && AllFit(l, Track(l, s, events[0]), events[1..]))
  }

  function TrackAll(l: Limit, s: Tracked, events: seq<Event>): Tracked
    decreases |events|
  {
    if events == [] then s else TrackAll(l, Track(l, s, events[0]), events[1..])
  }

  /** How many hits were counted in the window that starts at `start`. */
  function CountStart(log: seq<Hit>, start: int): nat {
    if log == [] then 0 else
      CountStart(log[..|log| - 1], start) + if log[|log| - 1].start == start then 1 else 0
  }

  /** How many hits lie in [from, to]. */
  function CountIn(log: seq<Hit>, from: int, to: int): nat {
    if log == [] then 0 else
      CountIn(log[..|log| - 1], from, to) + if from <= log[|log| - 1].time <= to then 1 else 0
  }

  /** Every earlier hit is of the window that starts at `start`, or of one that ended by then. */
  ghost predicate Before(log: seq<Hit>, durationMs: nat, start: int) {
    forall i :: 0 <= i < |log| ==> log[i].start == start || log[i].start + durationMs <= start
  }

  ghost predicate Windowed(log: seq<Hit>, durationMs: nat) {
    log == [] ||
    var before, last := log[..|log| - 1], log[|log| - 1];
    && Windowed(before, durationMs) && last.start <= last.time < last.start + durationMs
    && Before(before, durationMs, last.start)
  }

  function Bound(points: nat): nat {
    if points == 0 then 1 else points
  }

  ghost predicate Inv(l: Limit, s: Tracked) {
    && UniqueKeys(s.t) && Windowed(s.log, l.durationMs)
    && (forall start :: CountStart(s.log, start) <= Bound(l.points))
    && match Get(s.t, l.key)
       case None => forall i :: 0 <= i < |s.log| ==> s.log[i].start + l.durationMs <= s.now
       case Some(e) =>
         var start := e.resetAt - l.durationMs;
         && start <= s.now && Before(s.log, l.durationMs, start) && e.count >= 1
         && CountStart(s.log, start) == if e.count < Bound(l.points) then e.count else Bound(l.points)
  }

  lemma {:induction false} NoneStarted(log: seq<Hit>, start: int)
    requires forall i :: 0 <= i < |log| ==> log[i].start != start
    ensures CountStart(log, start) == 0
    decreases |log|
  {
    if log != [] {
      NoneStarted(log[..|log| - 1], start);
    }
  }

  /** A check that starts a window. */
  lemma StartGets(t: Table, now: int, key: string, durationMs: nat, other: string)
    requires UniqueKeys(t) && StartsWindow(t, key, now) && (Evicted(t, key) != t ==> t[0].key != other)
    ensures UniqueKeys(Checked(t, now, key, durationMs))
    ensures Get(Checked(t, now, key, durationMs), other) ==
            if other == key then Some(Entry(key, 1, now + durationMs)) else Get(t, other)
  {
    EvictedGets(t, key, other);
    SetGets(Evicted(t, key), Entry(key, 1, now + durationMs), other);
  }

  /** A check inside a window. */
  lemma CountGets(t: Table, now: int, key: string, durationMs: nat, other: string)
    requires UniqueKeys(t) && !StartsWindow(t, key, now)
    ensures UniqueKeys(Checked(t, now, key, durationMs))
    ensures Get(Checked(t, now, key, durationMs), other) ==
            if other == key then Some(Get(t, key).value.(count := Get(t, key).value.count + 1)) else Get(t, other)
  {
    FoundKey(t, key);
    SetGets(t, Get(t, key).value.(count := Get(t, key).value.count + 1), other);
  }

  lemma CheckGets(l: Limit, s: Tracked, e: Event)
    requires UniqueKeys(s.t) && Fits(l, s, e) && e.CheckOf?
    ensures UniqueKeys(Apply(s.t, e))
    ensures Get(Apply(s.t, e), l.key) ==
            if KeyOf(e) != l.key then Get(s.t, l.key)
            else if StartsWindow(s.t, l.key, e.now) then Some(Entry(l.key, 1, e.now + l.durationMs))
            else Some(Get(s.t, l.key).value.(count := Get(s.t, l.key).value.count + 1))
  {
    if StartsWindow(s.t, KeyOf(e), e.now) {
      StartGets(s.t, e.now, KeyOf(e), e.durationMs, l.key);
    } else {
      CountGets(s.t, e.now, KeyOf(e), e.durationMs, l.key);
    }
  }

  /** The last hit of a log, of a window that has room. */
  lemma OneMoreHit(log: seq<Hit>, durationMs: nat, bound: nat)
    requires log != []
    requires var before, hit := log[..|log| - 1], log[|log| - 1];
             && Windowed(before, durationMs) && hit.start <= hit.time < hit.start + durationMs
             && Before(before, durationMs, hit.start)
             && (forall start :: CountStart(before, start) <= bound) && CountStart(before, hit.start) < bound
    ensures Windowed(log, durationMs) && Before(log, durationMs, log[|log| - 1].start)
    ensures forall start :: CountStart(log, start) <= bound
    ensures CountStart(log, log[|log| - 1].start) == CountStart(log[..|log| - 1], log[|log| - 1].start) + 1
  {
  }

  /** The first hit of a new window. */
  lemma FreshHit(log: seq<Hit>, durationMs: nat, bound: nat)
    requires durationMs > 0 && bound > 0 && log != []
    requires var before, hit := log[..|log| - 1], log[|log| - 1];
             && Windowed(before, durationMs) && hit.start == hit.time
             && (forall i :: 0 <= i < |before| ==> before[i].start + durationMs <= hit.start)
             && (forall start :: CountStart(before, start) <= bound)
    ensures Windowed(log, durationMs) && Before(log, durationMs, log[|log| - 1].start)
    ensures forall start :: CountStart(log, start) <= bound
    ensures CountStart(log, log[|log| - 1].start) == 1
  {
    NoneStarted(log[..|log| - 1], log[|log| - 1].start);
    OneMoreHit(log, durationMs, bound);
  }

  lemma NewWindowKeepsInv(l: Limit, s: Tracked, e: Event)
    requires l.durationMs > 0 && Inv(l, s) && Fits(l, s, e) && e.CheckOf? && KeyOf(e) == l.key
    requires StartsWindow(s.t, l.key, e.now)
    ensures Inv(l, Track(l, s, e))
  {
    AllOver(l, s, e.now);
    var log := s.log + [Hit(e.now, e.now)];
    assert log[..|log| - 1] == s.log;
    FreshHit(log, l.durationMs, Bound(l.points));
    CheckGets(l, s, e);
  }

  /** When a window starts, every earlier window of the key is over. */
  lemma AllOver(l: Limit, s: Tracked, now: int)
    requires Inv(l, s) && s.now <= now && StartsWindow(s.t, l.key, now)
    ensures forall i :: 0 <= i < |s.log| ==> s.log[i].start + l.durationMs <= now
  {
  }

  lemma SameWindowKeepsInv(l: Limit, s: Tracked, e: Event)
    requires Inv(l, s) && Fits(l, s, e) && e.CheckOf? && KeyOf(e) == l.key
    requires !StartsWindow(s.t, l.key, e.now)
    ensures Inv(l, Track(l, s, e))
  {
    CheckGets(l, s, e);
    if Allows(s.t, e.now, l.key, l.points) {
      var log := s.log + [Hit(e.now, WindowStart(l, s.t, e.now))];
      assert log[..|log| - 1] == s.log;
      OneMoreHit(log, l.durationMs, Bound(l.points));
    }
  }

  lemma TrackKeepsInv(l: Limit, s: Tracked, e: Event)
    requires l.durationMs > 0 && Inv(l, s) && Fits(l, s, e)
    ensures Inv(l, Track(l, s, e))
  {
    if e.CleanupAt? {
      CleanupGets(s.t, e.now, l.key);
    } else if KeyOf(e) != l.key {
      CheckGets(l, s, e);
    } else if StartsWindow(s.t, l.key, e.now) {
      NewWindowKeepsInv(l, s, e);
    } else {
      SameWindowKeepsInv(l, s, e);
    }
  }

  lemma {:induction false} TrackAllKeepsInv(l: Limit, s: Tracked, events: seq<Event>)
    requires l.durationMs > 0 && Inv(l, s) && AllFit(l, s, events)
    ensures Inv(l, TrackAll(l, s, events))
    decreases |events|
  {
    if events != [] {
      TrackKeepsInv(l, s, events[0]);
      TrackAllKeepsInv(l, Track(l, s, events[0]), events[1..]);
    }
  }

  // ---- an interval as long as a window meets at most two windows ----

  lemma {:induction false} OneWindow(log: seq<Hit>, durationMs: nat, from: int, start: int)
    requires Windowed(log, durationMs) && Before(log, durationMs, start) && start <= from
    ensures CountIn(log, from, from + durationMs) <= CountStart(log, start)
    decreases |log|
  {
    if log != [] {
      assert log[|log| - 1].start == start || log[|log| - 1].start + durationMs <= start;
      OneWindow(log[..|log| - 1], durationMs, from, start);
    }
  }

  lemma {:induction false} EarlierWindow(log: seq<Hit>, durationMs: nat, from: int, start: int, bound: nat)
    requires durationMs > 0 && Windowed(log, durationMs) && Before(log, durationMs, start) && start <= from + durationMs
    requires forall s :: CountStart(log, s) <= bound
    ensures CountIn(log, from, from + durationMs) <= CountStart(log, start) + bound
    decreases |log|
  {
    if log != [] {
      var before, last := log[..|log| - 1], log[|log| - 1];
      assert last.start == start || last.start + durationMs <= start;
      if last.start != start && from <= last.time <= from + durationMs {
        OneWindow(log, durationMs, from, last.start);
        assert CountStart(log, last.start) <= bound;
      } else {
        assert forall s :: CountStart(before, s) <= CountStart(log, s);
        EarlierWindow(before, durationMs, from, start, bound);
      }
    }
  }

  lemma {:induction false} TwoWindows(log: seq<Hit>, durationMs: nat, from: int, bound: nat)
    requires durationMs > 0 && Windowed(log, durationMs)
    requires forall s :: CountStart(log, s) <= bound
    ensures CountIn(log, from, from + durationMs) <= 2 * bound
    decreases |log|
  {
    if log != [] {
      var before, last := log[..|log| - 1], log[|log| - 1];
      if from <= last.time <= from + durationMs {
        assert Before(log, durationMs, last.start);
        EarlierWindow(log, durationMs, from, last.start, bound);
        assert CountStart(log, last.start) <= bound;
      } else {
        assert forall s :: CountStart(before, s) <= CountStart(log, s);
        TwoWindows(before, durationMs, from, bound);
      }
    }
  }

  lemma AtMostTwiceFrom(l: Limit, s: Tracked, events: seq<Event>, from: int)
    requires l.durationMs > 0 && Inv(l, s) && AllFit(l, s, events)
    ensures CountIn(TrackAll(l, s, events).log, from, from + l.durationMs) <= 2 * Bound(l.points)
  {
    TrackAllKeepsInv(l, s, events);
    TwoWindows(TrackAll(l, s, events).log, l.durationMs, from, Bound(l.points));
  }

  /**
   A key that is not evicted is allowed at most twice its points in any interval as long as its
   window, across window resets and cleanups; with no points at all, still twice.
   */
  lemma AtMostTwiceThePoints(l: Limit, events: seq<Event>, from: int)
    requires l.durationMs > 0 && AllFit(l, Tracked([], 0, []), events)
    ensures CountIn(TrackAll(l, Tracked([], 0, []), events).log, from, from + l.durationMs) <= 2 * Bound(l.points)
  {
    AtMostTwiceFrom(l, Tracked([], 0, []), events, from);
  }

  // ---- nothing is denied too early ----

  /** How many hits were counted in windows that have not ended by `now`. */
  function Running(log: seq<Hit>, durationMs: nat, now: int): nat {
    if log == [] then 0 else
      Running(log[..|log| - 1], durationMs, now) + if now < log[|log| - 1].start + durationMs then 1 else 0
  }

  lemma {:induction false} OnlyWindow(log: seq<Hit>, durationMs: nat, start: int, now: int)
    requires Before(log, durationMs, start) && start <= now < start + durationMs
    ensures Running(log, durationMs, now) == CountStart(log, start)
    decreases |log|
  {
    if log != [] {
      assert log[|log| - 1].start == start || log[|log| - 1].start + durationMs <= start;
      OnlyWindow(log[..|log| - 1], durationMs, start, now);
    }
  }

  lemma {:induction false} NoneRuns(log: seq<Hit>, durationMs: nat, now: int)
    requires forall i :: 0 <= i < |log| ==> log[i].start + durationMs <= now
    ensures Running(log, durationMs, now) == 0
    decreases |log|
  {
    if log != [] {
      NoneRuns(log[..|log| - 1], durationMs, now);
    }
  }

  lemma AllowsByLog(l: Limit, s: Tracked, now: int)
    requires Inv(l, s) && s.now <= now
    ensures Running(s.log, l.durationMs, now) <= Bound(l.points)
    ensures Allows(s.t, now, l.key, l.points) <==> Running(s.log, l.durationMs, now) < Bound(l.points)
  {
    if StartsWindow(s.t, l.key, now) {
      AllOver(l, s, now);
      NoneRuns(s.log, l.durationMs, now);
    } else {
      OnlyWindow(s.log, l.durationMs, Get(s.t, l.key).value.resetAt - l.durationMs, now);
    }
  }

  /**
   A check of a key that is not evicted is denied exactly when its points were already allowed in the
   window that is running; with no points at all, one.
   */
  lemma DeniedIffFull(l: Limit, events: seq<Event>, now: int)
    requires l.durationMs > 0 && AllFit(l, Tracked([], 0, []), events)
    requires TrackAll(l, Tracked([], 0, []), events).now <= now
    ensures var s := TrackAll(l, Tracked([], 0, []), events);
            && Running(s.log, l.durationMs, now) <= Bound(l.points)
            && (!Allows(s.t, now, l.key, l.points) <==> Running(s.log, l.durationMs, now) == Bound(l.points))
  {
    TrackAllKeepsInv(l, Tracked([], 0, []), events);
    var s := TrackAll(l, Tracked([], 0, []), events);
    AllowsByLog(l, s, now);
  }

  // ---- the limiter ----

  class InMemoryRateLimiter {
    var counters: Table

    constructor ()
      ensures counters == []
    {
      counters := [];
    }

    method Check(now: int, key: string, points: nat, durationMs: nat) returns (allowed: bool, count: nat)
      modifies this
      ensures counters == Checked(old(counters), now, key, durationMs)
      ensures allowed == Allows(old(counters), now, key, points)
      ensures count == if StartsWindow(old(counters), key, now) then 1 else Get(old(counters), key).value.count + 1
    {
      var entry := Get(counters, key);
      if entry.None? || now >= entry.value.resetAt {
        if entry.None? && |counters| >= MAX_ENTRIES {
          var oldestKey := counters[0].key;
          if oldestKey != "" {
            counters := counters[1..];
          }
        }
        counters := Set(counters, Entry(key, 1, now + durationMs));
        return true, 1;
      }
      var next := entry.value.(count := entry.value.count + 1);
      counters := Set(counters, next);
      return next.count <= points, next.count;
    }

    /** Walks the entries in order and deletes those whose window is over. */
    method Cleanup(now: int)
      modifies this
      ensures counters == Cleaned(old(counters), now)
    {
      var i, n := 0, 0;
      while i < |counters|
        invariant 0 <= i <= |counters| && n + |counters| - i == |old(counters)| && 0 <= n <= |old(counters)|
        invariant counters[i..] == old(counters)[n..]
        invariant counters[..i] == Cleaned(old(counters)[..n], now)
        decreases |counters| - i
      {
        ghost var was := old(counters);
        assert counters[i] == counters[i..][0] == was[n..][0] == was[n];
        assert was[..n + 1][..n] == was[..n];
        if now >= counters[i].resetAt {
          counters := counters[..i] + counters[i + 1..];
        } else {
          assert counters[..i + 1] == counters[..i] + [counters[i]];
          i := i + 1;
        }
        n := n + 1;
      }
      assert old(counters)[..n] == old(counters) && counters[..i] == counters;
    }
  }
}
