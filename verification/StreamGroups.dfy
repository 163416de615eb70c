/**
 One stream with one consumer group of the in-memory client (packages/cache/src/mock.ts): XADD with
 MAXLEN, XREADGROUP, XACK, XAUTOCLAIM and XTRIM.

 The client compares ids as strings.  What it promises therefore holds for ids that increase in that
 comparison, in the order in which they arrive.
 */
module StreamGroups {
  import opened Wrappers

  datatype Entry = Entry(id: string, fields: string)

  datatype Pending = Pending(consumer: string, entry: Entry)

  /**
   `added`, `delivered` and `acked` are the history: every entry since the group was created, the new
   entries handed out in order, and the entries acknowledged.
   */
  datatype State = State(
    entries: seq<Entry>,
    lastId: string,
    pending: seq<Pending>,
    added: seq<Entry>,
    delivered: seq<Entry>,
    acked: set<Entry>)

  datatype Event =
    | Add(entry: Entry, keep: Option<nat>)
    | ReadNew(consumer: string, count: nat)
    | ReadPending(consumer: string, count: nat)
    | Ack(id: string)
    | AutoClaim(consumer: string, start: string, count: nat)
    | Trim(maxLen: nat)

  const START := "0-0"

  /** A group created at 0-0 on an empty stream. */
  function Init(): State {
    State([], START, [], [], [], {})
  }

  // ---- string comparison ----

  predicate Less(a: string, b: string) {
    b != "" && (a == "" || a[0] < b[0] || (a[0] == b[0] && Less(a[1..], b[1..])))
  }

  lemma {:induction false} LessIsTransitive(a: string, b: string, c: string)
    requires Less(a, b) && Less(b, c)
    ensures Less(a, c)
    decreases |a|
  {
    if a != "" && a[0] == b[0] && b[0] == c[0] {
      LessIsTransitive(a[1..], b[1..], c[1..]);
    }
  }

  lemma {:induction false} LessIsAsymmetric(a: string, b: string)
    ensures !(Less(a, b) && Less(b, a))
    decreases |a|
  {
    if a != "" && b != "" {
      LessIsAsymmetric(a[1..], b[1..]);
    }
  }

  // ---- the commands ----

  function LastOnly(entries: seq<Entry>, maxLen: nat): seq<Entry> {
    if |entries| > maxLen then entries[|entries| - maxLen..] else entries
  }

  function Newer(entries: seq<Entry>, lastId: string): seq<Entry> {
    if entries == [] then [] else
      var n := |entries| - 1;
      if Less(lastId, entries[n].id) then Newer(entries[..n], lastId) + [entries[n]] else Newer(entries[..n], lastId)
  }

  function Take<T>(s: seq<T>, count: nat): seq<T> {
    if count < |s| then s[..count] else s
  }

  function Fresh(s: State, count: nat): seq<Entry> {
    Take(Newer(s.entries, s.lastId), count)
  }

  /** The position of the id among the pending entries, or the end. */
  function Find(pending: seq<Pending>, id: string, i: nat): (r: nat)
    requires i <= |pending|
    ensures i <= r <= |pending| && (r < |pending| ==> pending[r].entry.id == id)
    decreases |pending| - i
  {
    if i == |pending| || pending[i].entry.id == id then i else Find(pending, id, i + 1)
  }

  /** Map.set. */
  function Set(pending: seq<Pending>, p: Pending): seq<Pending> {
    var i := Find(pending, p.entry.id, 0);
    if i < |pending| then pending[i := p] else pending + [p]
  }

  function SetAll(pending: seq<Pending>, consumer: string, msgs: seq<Entry>): seq<Pending> {
    if msgs == [] then pending else
      var n := |msgs| - 1;
      Set(SetAll(pending, consumer, msgs[..n]), Pending(consumer, msgs[n]))
  }

  function Owned(pending: seq<Pending>, consumer: string): seq<Entry> {
    if pending == [] then [] else
      var n := |pending| - 1;
      if pending[n].consumer == consumer then Owned(pending[..n], consumer) + [pending[n].entry]
      else Owned(pending[..n], consumer)
  }

  /** Map.delete. */
  function Remove(pending: seq<Pending>, id: string): seq<Pending> {
    var i := Find(pending, id, 0);
    if i < |pending| then pending[..i] + pending[i + 1..] else pending
  }

  /** Gives the first `count` entries with an id from `start` on to the consumer. */
  function Claim(pending: seq<Pending>, consumer: string, start: string, count: nat): seq<Pending> {
    if pending == [] || count == 0 then pending
    else if !Less(pending[0].entry.id, start)
    then [pending[0].(consumer := consumer)] + Claim(pending[1..], consumer, start, count - 1)
    else [pending[0]] + Claim(pending[1..], consumer, start, count)
  }

  function Apply(s: State, e: Event): State {
    match e
    case Add(entry, keep) =>
      var longer := s.entries + [entry];
      s.(entries := if keep.Some? && keep.value > 0 then LastOnly(longer, keep.value) else longer,
         added := s.added + [entry])
    case ReadNew(consumer, count) =>
      var msgs := Fresh(s, count);
      s.(lastId := if msgs == [] then s.lastId else msgs[|msgs| - 1].id,
         pending := SetAll(s.pending, consumer, msgs),
         delivered := s.delivered + msgs)
    case ReadPending(consumer, count) =>
      s.(pending := SetAll(s.pending, consumer, Take(Owned(s.pending, consumer), count)))
    case Ack(id) =>
      s.(pending := Remove(s.pending, id),
         acked := if Find(s.pending, id, 0) < |s.pending| then s.acked + {s.pending[Find(s.pending, id, 0)].entry}
                  else s.acked)
    case AutoClaim(consumer, start, count) =>
      s.(pending := Claim(s.pending, consumer, start, count))
    case Trim(maxLen) => s.(entries := LastOnly(s.entries, maxLen))
  }

  function Run(events: seq<Event>): State {
    if events == [] then Init() else Apply(Run(events[..|events| - 1]), events[|events| - 1])
  }

  // ---- ids that increase ----

  ghost predicate AllAbove(entries: seq<Entry>, id: string) {
    forall e | e in entries :: Less(id, e.id)
  }

  ghost predicate AllBelow(entries: seq<Entry>, id: string) {
    forall e | e in entries :: Less(e.id, id)
  }

  ghost predicate Rising(entries: seq<Entry>) {
    entries == [] ||
    var n := |entries| - 1;
    Rising(entries[..n]) && AllBelow(entries[..n], entries[n].id)
  }

  ghost predicate Ordered(added: seq<Entry>) {
    Rising(added) && AllAbove(added, START)
  }

  // ---- what every run keeps ----

  ghost function Ids(entries: seq<Entry>): set<string> {
    set e | e in entries :: e.id
  }

  ghost function PendingIds(pending: seq<Pending>): set<string> {
    set p | p in pending :: p.entry.id
  }

  ghost function SetIds(entries: set<Entry>): set<string> {
    set e | e in entries :: e.id
  }

  ghost predicate UniqueIds(pending: seq<Pending>) {
    forall i, j :: 0 <= i < j < |pending| ==> pending[i].entry.id != pending[j].entry.id
  }

  /** A retained entry was delivered exactly if it is not newer than the last delivered id. */
  ghost predicate Retained(entries: seq<Entry>, lastId: string, delivered: seq<Entry>) {
    forall e | e in entries :: !Less(lastId, e.id) <==> e.id in Ids(delivered)
  }

  ghost predicate NoneAbove(delivered: seq<Entry>, lastId: string) {
    forall e | e in delivered :: !Less(lastId, e.id)
  }

  ghost predicate Known(delivered: seq<Entry>, added: seq<Entry>) {
    forall e | e in delivered :: e in added
  }

  predicate IsSuffix(entries: seq<Entry>, added: seq<Entry>) {
    |entries| <= |added| && entries == added[|added| - |entries|..]
  }

  ghost predicate StreamInv(s: State) {
    && IsSuffix(s.entries, s.added)
    && Retained(s.entries, s.lastId, s.delivered)
    && NoneAbove(s.delivered, s.lastId) && Known(s.delivered, s.added) && Rising(s.delivered)
    && s.lastId == if s.delivered == [] then START else s.delivered[|s.delivered| - 1].id
  }

  /** Every delivered entry is pending or acknowledged, and not both. */
  ghost predicate GroupInv(s: State) {
    && UniqueIds(s.pending)
    && PendingIds(s.pending) + SetIds(s.acked) == Ids(s.delivered)
    && PendingIds(s.pending) * SetIds(s.acked) == {}
  }

  lemma {:induction false} LessIsTotal(a: string, b: string)
    ensures a == b || Less(a, b) || Less(b, a)
    decreases |a|
  {
    if a != "" && b != "" && a[0] == b[0] {
      LessIsTotal(a[1..], b[1..]);
      assert a == [a[0]] + a[1..] && b == [b[0]] + b[1..];
    }
  }

  lemma AtMostThenLess(a: string, b: string, c: string)
    requires !Less(b, a) && Less(b, c)
    ensures Less(a, c)
  {
    LessIsTotal(a, b);
    if a != b {
      LessIsTransitive(a, b, c);
    }
  }

  lemma {:induction false} RisingSuffix(entries: seq<Entry>, k: nat)
    requires Rising(entries) && k <= |entries|
    ensures Rising(entries[k..])
    decreases |entries|
  {
    if k < |entries| {
      var n := |entries| - 1;
      RisingSuffix(entries[..n], k);
      assert entries[k..][..n - k] == entries[..n][k..];
      assert forall e | e in entries[..n][k..] :: e in entries[..n];
    }
  }

  lemma {:induction false} RisingPrefix(entries: seq<Entry>, k: nat)
    requires Rising(entries) && k <= |entries|
    ensures Rising(entries[..k])
    decreases |entries|
  {
    if k < |entries| {
      var n := |entries| - 1;
      RisingPrefix(entries[..n], k);
      assert entries[..n][..k] == entries[..k];
    } else {
      assert entries[..k] == entries;
    }
  }

  lemma RisingSnoc(entries: seq<Entry>, e: Entry)
    requires Rising(entries) && AllBelow(entries, e.id)
    ensures Rising(entries + [e])
  {
    assert (entries + [e])[..|entries|] == entries;
  }

  lemma {:induction false} NewerIs(entries: seq<Entry>, lastId: string)
    requires Rising(entries)
    ensures Rising(Newer(entries, lastId))
    ensures forall e :: e in Newer(entries, lastId) <==> e in entries && Less(lastId, e.id)
    decreases |entries|
  {
    if entries != [] {
      var n := |entries| - 1;
      NewerIs(entries[..n], lastId);
      assert entries == entries[..n] + [entries[n]];
      if Less(lastId, entries[n].id) {
        RisingSnoc(Newer(entries[..n], lastId), entries[n]);
      }
    }
  }

  lemma {:induction false} RisingAt(entries: seq<Entry>, i: nat, j: nat)
    requires Rising(entries) && i < j < |entries|
    ensures Less(entries[i].id, entries[j].id)
    decreases |entries|
  {
    var n := |entries| - 1;
    if j < n {
      RisingAt(entries[..n], i, j);
    } else {
      assert entries[..n][i] in entries[..n];
    }
  }

  lemma LastIsHighest(t: seq<Entry>)
    requires Rising(t) && t != []
    ensures forall e | e in t :: !Less(t[|t| - 1].id, e.id)
  {
    forall e | e in t ensures !Less(t[|t| - 1].id, e.id) {
      LessIsAsymmetric(e.id, t[|t| - 1].id);
      assert e in t[..|t| - 1] || e == t[|t| - 1];
    }
  }

  lemma RestIsHigher(entries: seq<Entry>, n: nat, e: Entry)
    requires Rising(entries) && 0 < n <= |entries| && e in entries[n..]
    ensures Less(entries[n - 1].id, e.id)
  {
    var i :| 0 <= i < |entries[n..]| && entries[n..][i] == e;
    RisingAt(entries, n - 1, n + i);
  }

  /** The entries that a read leaves are newer than those it takes. */
  lemma TakeIs(entries: seq<Entry>, count: nat)
    requires Rising(entries)
    ensures var t := Take(entries, count);
            && Rising(t) && (forall e | e in t :: e in entries)
            && (t != [] ==> forall e | e in entries && e !in t :: Less(t[|t| - 1].id, e.id))
            && (t != [] ==> forall e | e in t :: !Less(t[|t| - 1].id, e.id))
  {
    var t := Take(entries, count);
    RisingPrefix(entries, |t|);
    assert t == entries[..|t|] && entries == t + entries[|t|..];
    if t != [] {
      LastIsHighest(t);
      forall e | e in entries && e !in t ensures Less(t[|t| - 1].id, e.id) {
        RestIsHigher(entries, |t|, e);
      }
    }
  }

  // ---- the pending entries ----

  lemma {:induction false} FindIs(pending: seq<Pending>, id: string, i: nat)
    requires i <= |pending|
    ensures forall k :: i <= k < Find(pending, id, i) ==> pending[k].entry.id != id
    decreases |pending| - i
  {
    if i < |pending| && pending[i].entry.id != id {
      FindIs(pending, id, i + 1);
    }
  }

  lemma SetIs(pending: seq<Pending>, p: Pending)
    requires UniqueIds(pending)
    ensures UniqueIds(Set(pending, p)) && PendingIds(Set(pending, p)) == PendingIds(pending) + {p.entry.id}
  {
    var i := Find(pending, p.entry.id, 0);
    FindIs(pending, p.entry.id, 0);
    var r := Set(pending, p);
    assert PendingIds(r) <= PendingIds(pending) + {p.entry.id};
    forall id | id in PendingIds(pending) + {p.entry.id} ensures id in PendingIds(r) {
      if id == p.entry.id {
        assert (if i < |pending| then r[i] else r[|pending|]) == p;
        assert p in r;
      } else {
        var q :| q in pending && q.entry.id == id;
        var k :| 0 <= k < |pending| && pending[k] == q;
        assert r[k] == q;
      }
    }
  }

  lemma {:induction false} SetAllIs(pending: seq<Pending>, consumer: string, msgs: seq<Entry>)
    requires UniqueIds(pending)
    ensures UniqueIds(SetAll(pending, consumer, msgs))
    ensures PendingIds(SetAll(pending, consumer, msgs)) == PendingIds(pending) + Ids(msgs)
    decreases |msgs|
  {
    if msgs != [] {
      var n := |msgs| - 1;
      SetAllIs(pending, consumer, msgs[..n]);
      SetIs(SetAll(pending, consumer, msgs[..n]), Pending(consumer, msgs[n]));
      assert msgs == msgs[..n] + [msgs[n]];
    }
  }

  lemma {:induction false} OwnedArePending(pending: seq<Pending>, consumer: string)
    ensures Ids(Owned(pending, consumer)) <= PendingIds(pending)
    decreases |pending|
  {
    if pending != [] {
      var n := |pending| - 1;
      OwnedArePending(pending[..n], consumer);
      forall e | e in Owned(pending, consumer) ensures e.id in PendingIds(pending) {
        if e in Owned(pending[..n], consumer) {
          assert e.id in PendingIds(pending[..n]);
          var k := PositionOf(pending[..n], e.id);
          IdAt(pending, k);
        } else {
          IdAt(pending, n);
        }
      }
    }
  }

  lemma IdAt(pending: seq<Pending>, k: nat)
    requires k < |pending|
    ensures pending[k].entry.id in PendingIds(pending)
  {
    assert pending[k] in pending;
  }

  lemma PositionOf(pending: seq<Pending>, id: string) returns (k: nat)
    requires id in PendingIds(pending)
    ensures k < |pending| && pending[k].entry.id == id
  {
    var p :| p in pending && p.entry.id == id;
    k :| 0 <= k < |pending| && pending[k] == p;
  }

  lemma FindFinds(pending: seq<Pending>, id: string)
    ensures Find(pending, id, 0) < |pending| <==> id in PendingIds(pending)
  {
    FindIs(pending, id, 0);
    if id in PendingIds(pending) {
      var k := PositionOf(pending, id);
    } else {
      assert forall k | 0 <= k < |pending| :: pending[k] in pending;
    }
  }

  lemma DropAt(pending: seq<Pending>, i: nat)
    requires UniqueIds(pending) && i < |pending|
    ensures var r := pending[..i] + pending[i + 1..];
            UniqueIds(r) && PendingIds(r) == PendingIds(pending) - {pending[i].entry.id}
  {
    var r := pending[..i] + pending[i + 1..];
    forall x | x in PendingIds(pending) - {pending[i].entry.id} ensures x in PendingIds(r) {
      var k := PositionOf(pending, x);
      IdAt(r, if k < i then k else k - 1);
    }
    forall x | x in PendingIds(r) ensures x in PendingIds(pending) - {pending[i].entry.id} {
      var k := PositionOf(r, x);
      IdAt(pending, if k < i then k else k + 1);
    }
  }

  lemma RemoveIs(pending: seq<Pending>, id: string)
    requires UniqueIds(pending)
    ensures UniqueIds(Remove(pending, id)) && PendingIds(Remove(pending, id)) == PendingIds(pending) - {id}
    ensures Find(pending, id, 0) < |pending| <==> id in PendingIds(pending)
  {
    FindFinds(pending, id);
    if Find(pending, id, 0) < |pending| {
      DropAt(pending, Find(pending, id, 0));
    }
  }

  /** An automatic claim changes nothing but owners. */
  lemma {:induction false} ClaimChangesOnlyOwners(pending: seq<Pending>, consumer: string, start: string, count: nat)
    ensures var r := Claim(pending, consumer, start, count);
            && |r| == |pending|
            && forall i :: 0 <= i < |r| ==>
                 r[i].entry == pending[i].entry && (r[i].consumer == pending[i].consumer || r[i].consumer == consumer)
    decreases |pending|
  {
    if pending != [] && count > 0 {
      ClaimChangesOnlyOwners(pending[1..], consumer, start,
                             if !Less(pending[0].entry.id, start) then count - 1 else count);
    }
  }

  lemma ClaimIs(pending: seq<Pending>, consumer: string, start: string, count: nat)
    requires UniqueIds(pending)
    ensures var r := Claim(pending, consumer, start, count); UniqueIds(r) && PendingIds(r) == PendingIds(pending)
  {
    ClaimChangesOnlyOwners(pending, consumer, start, count);
    var r := Claim(pending, consumer, start, count);
    forall id | id in PendingIds(pending) ensures id in PendingIds(r) {
      var p :| p in pending && p.entry.id == id;
      var k :| 0 <= k < |pending| && pending[k] == p;
      assert r[k] in r;
    }
    forall id | id in PendingIds(r) ensures id in PendingIds(pending) {
      var p :| p in r && p.entry.id == id;
      var k :| 0 <= k < |r| && r[k] == p;
      assert pending[k] in pending;
    }
  }

  // ---- every command keeps the invariants ----

  /** A new entry is above everything delivered. */
  lemma NewIsAbove(s: State, entry: Entry)
    requires StreamInv(s) && Ordered(s.added + [entry])
    ensures Less(s.lastId, entry.id)
  {
    var all := s.added + [entry];
    assert all[..|s.added|] == s.added;
    assert entry in all;
    if s.delivered != [] {
      assert s.delivered[|s.delivered| - 1] in s.added;
    }
  }

  lemma RetainedSnoc(entries: seq<Entry>, entry: Entry, lastId: string, delivered: seq<Entry>)
    requires Retained(entries, lastId, delivered) && NoneAbove(delivered, lastId) && Less(lastId, entry.id)
    ensures Retained(entries + [entry], lastId, delivered)
  {
  }

  lemma LastOnlyKeeps(entries: seq<Entry>, maxLen: nat, added: seq<Entry>, lastId: string, delivered: seq<Entry>)
    requires IsSuffix(entries, added) && Retained(entries, lastId, delivered)
    ensures IsSuffix(LastOnly(entries, maxLen), added) && Retained(LastOnly(entries, maxLen), lastId, delivered)
  {
    assert forall e | e in LastOnly(entries, maxLen) :: e in entries;
  }

  lemma AddKeepsStream(s: State, entry: Entry, keep: Option<nat>)
    requires StreamInv(s) && Ordered(s.added + [entry])
    ensures StreamInv(Apply(s, Add(entry, keep)))
  {
    OneMoreKeepsStream(s, entry);
    if keep.Some? && keep.value > 0 {
      TrimKeepsStream(s.(entries := s.entries + [entry], added := s.added + [entry]), keep.value);
    }
  }

  lemma OneMoreKeepsStream(s: State, entry: Entry)
    requires StreamInv(s) && Ordered(s.added + [entry])
    ensures StreamInv(s.(entries := s.entries + [entry], added := s.added + [entry]))
  {
    NewIsAbove(s, entry);
    RetainedSnoc(s.entries, entry, s.lastId, s.delivered);
    SuffixSnoc(s.entries, s.added, entry);
    assert Known(s.delivered, s.added + [entry]);
  }

  lemma SuffixSnoc(entries: seq<Entry>, added: seq<Entry>, entry: Entry)
    requires IsSuffix(entries, added)
    ensures IsSuffix(entries + [entry], added + [entry])
  {
    var longer, all := entries + [entry], added + [entry];
    assert longer == all[|all| - |longer|..];
  }

  lemma TrimKeepsStream(s: State, maxLen: nat)
    requires StreamInv(s)
    ensures StreamInv(Apply(s, Trim(maxLen)))
  {
    LastOnlyKeeps(s.entries, maxLen, s.added, s.lastId, s.delivered);
  }

  lemma FreshIs(s: State, count: nat)
    requires IsSuffix(s.entries, s.added) && Rising(s.added)
    ensures var msgs := Fresh(s, count);
            && Rising(msgs)
            && (msgs != [] ==> IsRead(s.entries, s.lastId, msgs, msgs[|msgs| - 1].id))
  {
    RisingSuffix(s.added, |s.added| - |s.entries|);
    NewerIs(s.entries, s.lastId);
    TakeIs(Newer(s.entries, s.lastId), count);
    var msgs := Fresh(s, count);
    if msgs != [] {
      assert msgs[|msgs| - 1] in msgs;
    }
  }

  /** The messages of a read, up to the id of the last one. */
  ghost predicate IsRead(entries: seq<Entry>, lastId: string, msgs: seq<Entry>, last: string) {
    && Less(lastId, last) && AllAbove(msgs, lastId) && NoneAbove(msgs, last) && Known(msgs, entries)
    && (forall e | e in entries && Less(lastId, e.id) && e !in msgs :: Less(last, e.id))
  }

  lemma FreshIsNew(delivered: seq<Entry>, lastId: string, msgs: seq<Entry>)
    requires NoneAbove(delivered, lastId) && AllAbove(msgs, lastId)
    ensures Ids(msgs) * Ids(delivered) == {}
  {
  }

  lemma ReadKeepsStream(s: State, consumer: string, count: nat)
    requires StreamInv(s) && Ordered(s.added)
    ensures StreamInv(Apply(s, ReadNew(consumer, count)))
    ensures Ids(Fresh(s, count)) * Ids(s.delivered) == {}
  {
    var msgs := Fresh(s, count);
    FreshIs(s, count);
    if msgs != [] {
      FreshIsNew(s.delivered, s.lastId, msgs);
      DeliveryKeepsStream(s, msgs, msgs[|msgs| - 1].id);
    } else {
      assert s.delivered + msgs == s.delivered;
    }
  }

  lemma DeliveryKeepsStream(s: State, msgs: seq<Entry>, last: string)
    requires StreamInv(s) && msgs != [] && last == msgs[|msgs| - 1].id
    requires Rising(msgs) && IsRead(s.entries, s.lastId, msgs, last)
    ensures StreamInv(s.(lastId := last, delivered := s.delivered + msgs))
  {
    ReadEntries(s.entries, s.lastId, s.delivered, msgs, last);
    DeliveredRises(s.delivered, msgs, s.lastId);
    DeliveredUpTo(s.delivered, s.lastId, msgs, last);
    DeliveredKnown(s.entries, s.added, s.delivered, msgs);
  }

  lemma DeliveredUpTo(delivered: seq<Entry>, lastId: string, msgs: seq<Entry>, last: string)
    requires NoneAbove(delivered, lastId) && Less(lastId, last) && NoneAbove(msgs, last)
    ensures NoneAbove(delivered + msgs, last)
  {
    forall e | e in delivered ensures !Less(last, e.id) {
      NotAboveLater(e.id, lastId, last);
    }
  }

  lemma DeliveredKnown(entries: seq<Entry>, added: seq<Entry>, delivered: seq<Entry>, msgs: seq<Entry>)
    requires IsSuffix(entries, added) && Known(delivered, added) && Known(msgs, entries)
    ensures Known(delivered + msgs, added)
  {
    assert forall e | e in entries :: e in added;
  }

  lemma NotAboveLater(a: string, b: string, c: string)
    requires !Less(b, a) && Less(b, c)
    ensures !Less(c, a)
  {
    AtMostThenLess(a, b, c);
    LessIsAsymmetric(a, c);
  }

  lemma ReadEntries(entries: seq<Entry>, lastId: string, delivered: seq<Entry>, msgs: seq<Entry>, last: string)
    requires Retained(entries, lastId, delivered) && IsRead(entries, lastId, msgs, last)
    ensures Retained(entries, last, delivered + msgs)
  {
    IdsAppend(delivered, msgs);
    forall e | e in entries ensures !Less(last, e.id) <==> e.id in Ids(delivered) + Ids(msgs) {
      if e.id in Ids(delivered) {
        NotAboveLater(e.id, lastId, last);
      }
    }
  }

  lemma AllBelowBoth(delivered: seq<Entry>, lastId: string, msgs: seq<Entry>, id: string)
    requires NoneAbove(delivered, lastId) && Less(lastId, id) && AllBelow(msgs, id)
    ensures AllBelow(delivered + msgs, id)
  {
    forall e | e in delivered ensures Less(e.id, id) {
      AtMostThenLess(e.id, lastId, id);
    }
  }

  lemma OneMoreDelivered(delivered: seq<Entry>, lastId: string, before: seq<Entry>, m: Entry)
    requires NoneAbove(delivered, lastId) && Less(lastId, m.id) && AllBelow(before, m.id)
    requires Rising(delivered + before)
    ensures Rising(delivered + (before + [m]))
  {
    AllBelowBoth(delivered, lastId, before, m.id);
    RisingSnoc(delivered + before, m);
    assert delivered + (before + [m]) == (delivered + before) + [m];
  }

  lemma AllAboveCut(msgs: seq<Entry>, lastId: string)
    requires AllAbove(msgs, lastId) && msgs != []
    ensures AllAbove(msgs[..|msgs| - 1], lastId) && Less(lastId, msgs[|msgs| - 1].id)
  {
    assert msgs[|msgs| - 1] in msgs;
  }

  lemma {:induction false} DeliveredRises(delivered: seq<Entry>, msgs: seq<Entry>, lastId: string)
    requires Rising(delivered) && Rising(msgs)
    requires NoneAbove(delivered, lastId) && AllAbove(msgs, lastId)
    ensures Rising(delivered + msgs)
    decreases |msgs|
  {
    if msgs == [] {
      assert delivered + msgs == delivered;
    } else {
      var n := |msgs| - 1;
      AllAboveCut(msgs, lastId);
      DeliveredRises(delivered, msgs[..n], lastId);
      OneMoreDelivered(delivered, lastId, msgs[..n], msgs[n]);
      assert msgs[..n] + [msgs[n]] == msgs;
    }
  }

  lemma EventKeepsGroup(s: State, e: Event)
    requires GroupInv(s) && (e.ReadNew? ==> Ids(Fresh(s, e.count)) * Ids(s.delivered) == {})
    ensures GroupInv(Apply(s, e))
  {
    match e
    case ReadNew(consumer, count) =>
      var msgs := Fresh(s, count);
      SetAllIs(s.pending, consumer, msgs);
      IdsAppend(s.delivered, msgs);
    case ReadPending(consumer, count) =>
      var owned := Owned(s.pending, consumer);
      OwnedArePending(s.pending, consumer);
      SetAllIs(s.pending, consumer, Take(owned, count));
      assert Ids(Take(owned, count)) <= Ids(owned);
    case Ack(id) => RemoveIs(s.pending, id);
    case AutoClaim(consumer, start, count) => ClaimIs(s.pending, consumer, start, count);
    case _ =>
  }

  lemma IdsAppend(a: seq<Entry>, b: seq<Entry>)
    ensures Ids(a + b) == Ids(a) + Ids(b)
  {
  }

  lemma OrderedBefore(s: State, e: Event)
    requires Ordered(Apply(s, e).added)
    ensures Ordered(s.added)
  {
    if e.Add? {
      var all := s.added + [e.entry];
      assert all[..|s.added|] == s.added;
      assert forall x | x in s.added :: x in all;
    }
  }

  // ---- pending and acknowledged entries are entries that were added ----

  ghost predicate From(pending: seq<Pending>, added: seq<Entry>) {
    forall p | p in pending :: p.entry in added
  }

  ghost predicate Traced(s: State) {
    From(s.pending, s.added) && forall e | e in s.acked :: e in s.added
  }

  lemma {:induction false} SetAllFrom(pending: seq<Pending>, consumer: string, msgs: seq<Entry>, added: seq<Entry>)
    requires From(pending, added) && Known(msgs, added)
    ensures From(SetAll(pending, consumer, msgs), added)
    decreases |msgs|
  {
    if msgs != [] {
      var n := |msgs| - 1;
      assert msgs[n] in msgs && forall e | e in msgs[..n] :: e in msgs;
      SetAllFrom(pending, consumer, msgs[..n], added);
    }
  }

  lemma {:induction false} OwnedFrom(pending: seq<Pending>, consumer: string, added: seq<Entry>)
    requires From(pending, added)
    ensures Known(Owned(pending, consumer), added)
    decreases |pending|
  {
    if pending != [] {
      var n := |pending| - 1;
      assert pending[n] in pending && forall p | p in pending[..n] :: p in pending;
      OwnedFrom(pending[..n], consumer, added);
    }
  }

  lemma ClaimFrom(pending: seq<Pending>, consumer: string, start: string, count: nat, added: seq<Entry>)
    requires From(pending, added)
    ensures From(Claim(pending, consumer, start, count), added)
  {
    ClaimChangesOnlyOwners(pending, consumer, start, count);
    var r := Claim(pending, consumer, start, count);
    forall p | p in r ensures p.entry in added {
      var k :| 0 <= k < |r| && r[k] == p;
      assert pending[k] in pending;
    }
  }

  lemma {:induction false} NewerKnown(entries: seq<Entry>, lastId: string)
    ensures Known(Newer(entries, lastId), entries)
    decreases |entries|
  {
    if entries != [] {
      NewerKnown(entries[..|entries| - 1], lastId);
    }
  }

  lemma EventKeepsTraced(s: State, e: Event)
    requires Traced(s) && IsSuffix(s.entries, s.added)
    ensures Traced(Apply(s, e))
  {
    match e
    case ReadNew(consumer, count) =>
      NewerKnown(s.entries, s.lastId);
      assert forall x | x in s.entries :: x in s.added;
      assert forall x | x in Fresh(s, count) :: x in Newer(s.entries, s.lastId);
      SetAllFrom(s.pending, consumer, Fresh(s, count), s.added);
    case ReadPending(consumer, count) =>
      OwnedFrom(s.pending, consumer, s.added);
      SetAllFrom(s.pending, consumer, Take(Owned(s.pending, consumer), count), s.added);
    case AutoClaim(consumer, start, count) => ClaimFrom(s.pending, consumer, start, count, s.added);
    case Ack(id) =>
      if Find(s.pending, id, 0) < |s.pending| {
        assert s.pending[Find(s.pending, id, 0)] in s.pending;
      }
    case _ =>
  }

  lemma {:induction false} RunKeepsInv(events: seq<Event>)
    requires Ordered(Run(events).added)
    ensures StreamInv(Run(events)) && GroupInv(Run(events)) && Traced(Run(events))
    decreases |events|
  {
    if events != [] {
      var s, e := Run(events[..|events| - 1]), events[|events| - 1];
      OrderedBefore(s, e);
      RunKeepsInv(events[..|events| - 1]);
      match e {
        case Add(entry, keep) => AddKeepsStream(s, entry, keep);
        case ReadNew(consumer, count) => ReadKeepsStream(s, consumer, count);
        case Trim(maxLen) => TrimKeepsStream(s, maxLen);
        case _ =>
      }
      EventKeepsGroup(s, e);
      EventKeepsTraced(s, e);
    }
  }

  // ---- the theorems ----

  predicate Waits(s: State, e: Entry) {
    e in s.entries && Less(s.lastId, e.id)
  }

  /** Gone from the stream without having been delivered. */
  predicate Lost(s: State, e: Entry) {
    e !in s.entries && e !in s.delivered
  }

  predicate IsPending(s: State, e: Entry) {
    exists i :: 0 <= i < |s.pending| && s.pending[i].entry == e
  }

  /** Waiting, trimmed before delivery, pending, or acknowledged, and only one of them. */
  predicate InOnePlace(s: State, e: Entry) {
    var waits, lost, pending, acked := Waits(s, e), Lost(s, e), IsPending(s, e), e in s.acked;
    && (waits || lost || pending || acked)
    && !(waits && lost) && !(waits && pending) && !(waits && acked)
    && !(lost && pending) && !(lost && acked) && !(pending && acked)
  }

  /** Every entry added is in exactly one place. */
  lemma Conservation(events: seq<Event>, e: Entry)
    requires Ordered(Run(events).added) && e in Run(events).added
    ensures InOnePlace(Run(events), e)
  {
    RunKeepsInv(events);
    RisingIdsDiffer(Run(events).added);
    EntryIsInOnePlace(Run(events), e);
  }

  /** No two entries share an id. */
  ghost predicate IdsDiffer(added: seq<Entry>) {
    forall a, b | a in added && b in added && a.id == b.id :: a == b
  }

  lemma RisingIdsDiffer(added: seq<Entry>)
    requires Rising(added)
    ensures IdsDiffer(added)
  {
    forall a, b | a in added && b in added && a.id == b.id ensures a == b {
      var i :| 0 <= i < |added| && added[i] == a;
      var j :| 0 <= j < |added| && added[j] == b;
      LessIsAsymmetric(a.id, a.id);
      if i < j {
        RisingAt(added, i, j);
      } else if j < i {
        RisingAt(added, j, i);
      }
    }
  }

  /** Where ids differ, an entry is where its id is. */
  lemma PlacesById(s: State, e: Entry)
    requires StreamInv(s) && Traced(s) && IdsDiffer(s.added) && e in s.added
    ensures IsPending(s, e) <==> e.id in PendingIds(s.pending)
    ensures e in s.acked <==> e.id in SetIds(s.acked)
    ensures e in s.delivered <==> e.id in Ids(s.delivered)
  {
    if e.id in PendingIds(s.pending) {
      var k := PositionOf(s.pending, e.id);
      assert s.pending[k] in s.pending;
    }
    if IsPending(s, e) {
      var i :| 0 <= i < |s.pending| && s.pending[i].entry == e;
      IdAt(s.pending, i);
    }
  }

  lemma EntryIsInOnePlace(s: State, e: Entry)
    requires StreamInv(s) && GroupInv(s) && Traced(s) && IdsDiffer(s.added) && e in s.added
    ensures InOnePlace(s, e)
  {
    PlacesById(s, e);
    var id := e.id;
    assert id in PendingIds(s.pending) + SetIds(s.acked) <==> id in Ids(s.delivered);
    assert id !in PendingIds(s.pending) * SetIds(s.acked);
    assert e in s.entries ==> (!Less(s.lastId, id) <==> id in Ids(s.delivered));
  }

  // ---- exactly which ids keep every entry ----

  function IdsOf(entries: seq<Entry>): (r: seq<string>)
    ensures |r| == |entries| && forall i :: 0 <= i < |r| ==> r[i] == entries[i].id
  {
    seq(|entries|, i requires 0 <= i < |entries| => entries[i].id)
  }

  /** Above the start of the group, and each above those before it. */
  ghost predicate Increasing(ids: seq<string>) {
    && (forall i :: 0 <= i < |ids| ==> Less(START, ids[i]))
    && (forall i, j :: 0 <= i < j < |ids| ==> Less(ids[i], ids[j]))
  }

  /** Whatever the fields, and however the commands interleave, every entry added under these ids is in one place. */
  ghost predicate Conserves(ids: seq<string>) {
    forall events, e :: IdsOf(Run(events).added) == ids && e in Run(events).added ==> InOnePlace(Run(events), e)
  }

  lemma {:induction false} IncreasingIsRising(entries: seq<Entry>)
    requires Increasing(IdsOf(entries))
    ensures Rising(entries)
    decreases |entries|
  {
    if entries != [] {
      var n := |entries| - 1;
      var ids, before := IdsOf(entries), IdsOf(entries[..n]);
      assert before == ids[..n];
      IncreasingIsRising(entries[..n]);
      forall e | e in entries[..n] ensures Less(e.id, entries[n].id) {
        var i :| 0 <= i < n && entries[..n][i] == e;
        assert Less(ids[i], ids[n]);
      }
    }
  }

  lemma IncreasingIsOrdered(entries: seq<Entry>)
    requires Increasing(IdsOf(entries))
    ensures Ordered(entries)
  {
    IncreasingIsRising(entries);
    forall e | e in entries ensures Less(START, e.id) {
      var i :| 0 <= i < |entries| && entries[i] == e;
      assert IdsOf(entries)[i] == e.id;
    }
  }

  /** One entry for each id, with fields that no other one has for the j-th. */
  function EntriesFor(ids: seq<string>, j: nat): (r: seq<Entry>)
    ensures |r| == |ids| && IdsOf(r) == ids
    ensures forall i :: 0 <= i < |r| ==> r[i].id == ids[i] && (r[i].fields == "late" <==> i == j)
  {
    var r := seq(|ids|, i requires 0 <= i < |ids| => Entry(ids[i], if i == j then "late" else ""));
    assert IdsOf(r) == ids;
    r
  }

  function Adds(entries: seq<Entry>): (r: seq<Event>)
    ensures |r| == |entries| && forall i :: 0 <= i < |r| ==> r[i] == Add(entries[i], None)
  {
    seq(|entries|, i requires 0 <= i < |entries| => Add(entries[i], None))
  }

  lemma RunSnoc(events: seq<Event>, e: Event)
    ensures Run(events + [e]) == Apply(Run(events), e)
  {
    assert (events + [e])[..|events|] == events;
  }

  lemma {:induction false} RunAdds(before: seq<Event>, entries: seq<Entry>)
    ensures var s := Run(before);
            Run(before + Adds(entries)) == s.(entries := s.entries + entries, added := s.added + entries)
    decreases |entries|
  {
    if entries == [] {
      assert before + Adds(entries) == before && Run(before).entries + entries == Run(before).entries;
      assert Run(before).added + entries == Run(before).added;
    } else {
      var n := |entries| - 1;
      var s := Run(before);
      RunAdds(before, entries[..n]);
      assert Adds(entries) == Adds(entries[..n]) + [Add(entries[n], None)];
      assert before + Adds(entries) == (before + Adds(entries[..n])) + [Add(entries[n], None)];
      RunSnoc(before + Adds(entries[..n]), Add(entries[n], None));
      assert entries[..n] + [entries[n]] == entries;
      assert s.entries + entries[..n] + [entries[n]] == s.entries + entries;
      assert s.added + entries[..n] + [entries[n]] == s.added + entries;
    }
  }

  /** The state in which only the last entry is left, and was read. */
  function OneRead(e: Entry, added: seq<Entry>): State {
    State([e], e.id, [Pending("c", e)], added, [e], {})
  }

  lemma ReadTheOnly(e: Entry, added: seq<Entry>)
    requires Less(START, e.id)
    ensures Apply(State([e], START, [], added, [], {}), ReadNew("c", 1)) == OneRead(e, added)
  {
    var one := [e];
    assert one[..0] == [] && Newer([], START) == [] && Newer(one, START) == [e];
    assert SetAll([], "c", one) == [Pending("c", e)];
  }

  lemma RunOnlyAdds(entries: seq<Entry>)
    ensures Run(Adds(entries)) == State(entries, START, [], entries, [], {})
  {
    RunAdds([], entries);
    assert [] + Adds(entries) == Adds(entries);
    assert [] + entries == entries;
  }

  lemma KeepTheLast(s: State, e: Entry)
    ensures Apply(s, Add(e, Some(1))) == s.(entries := [e], added := s.added + [e])
  {
    assert (s.entries + [e])[|s.entries|..] == [e];
  }

  /** Add up to an entry, keeping only that one, and read it. */
  lemma AddThenRead(before: seq<Entry>, e: Entry) returns (events: seq<Event>)
    requires Less(START, e.id)
    ensures Run(events) == OneRead(e, before + [e])
  {
    RunOnlyAdds(before);
    var s := State(before, START, [], before, [], {});
    KeepTheLast(s, e);
    ReadTheOnly(e, before + [e]);
    events := Adds(before) + [Add(e, Some(1))];
    RunSnoc(Adds(before), Add(e, Some(1)));
    RunSnoc(events, ReadNew("c", 1));
    events := events + [ReadNew("c", 1)];
  }

  lemma NotConserved(ids: seq<string>, events: seq<Event>, e: Entry)
    requires IdsOf(Run(events).added) == ids && e in Run(events).added && !InOnePlace(Run(events), e)
    ensures !Conserves(ids)
  {
  }

  /** An id that is not above the start of the group. */
  lemma TooLowFromTheStart(ids: seq<string>, j: nat)
    requires j < |ids| && !Less(START, ids[j])
    ensures !Conserves(ids)
  {
    var entries := EntriesFor(ids, j);
    RunOnlyAdds(entries);
    NeverRead(entries, entries[j]);
    NotConserved(ids, Adds(entries), entries[j]);
  }

  lemma NeverRead(entries: seq<Entry>, e: Entry)
    requires e in entries && !Less(START, e.id)
    ensures !InOnePlace(State(entries, START, [], entries, [], {}), e)
  {
  }

  lemma NowhereAfterRead(e: Entry, added: seq<Entry>, later: seq<Entry>, late: Entry)
    requires !Less(e.id, late.id) && late in later && late != e
    ensures var s := OneRead(e, added); !InOnePlace(s.(entries := s.entries + later, added := s.added + later), late)
  {
  }

  /** An id that is not above an earlier one: the earlier one is read first, the later one never. */
  lemma TooLowLater(ids: seq<string>, i: nat, j: nat)
    requires i < j < |ids| && Less(START, ids[i]) && !Less(ids[i], ids[j])
    ensures !Conserves(ids)
  {
    var entries := EntriesFor(ids, j);
    var events := ReadThenAdd(entries, i, j);
    NotConserved(ids, events, entries[j]);
  }

  lemma ReadThenAdd(entries: seq<Entry>, i: nat, j: nat) returns (events: seq<Event>)
    requires i < j < |entries| && Less(START, entries[i].id) && !Less(entries[i].id, entries[j].id)
    requires entries[i] != entries[j]
    ensures Run(events).added == entries && !InOnePlace(Run(events), entries[j])
  {
    var e, before, later := entries[i], entries[..i], entries[i + 1..];
    events := AddThenRead(before, e);
    RunAdds(events, later);
    events := events + Adds(later);
    CutAt(entries, i, j);
    NowhereAfterRead(e, before + [e], later, entries[j]);
  }

  lemma CutAt(entries: seq<Entry>, i: nat, j: nat)
    requires i < j < |entries|
    ensures entries[..i] + [entries[i]] + entries[i + 1..] == entries && entries[j] in entries[i + 1..]
  {
    assert entries[i + 1..][j - i - 1] == entries[j];
  }

  /**
   Over all runs: every entry added under these ids is in exactly one place, if and only if the ids are
   above the start of the group and increase as strings.
   */
  lemma ConservesIff(ids: seq<string>)
    ensures Conserves(ids) <==> Increasing(ids)
  {
    if Increasing(ids) {
      forall events, e | IdsOf(Run(events).added) == ids && e in Run(events).added
        ensures InOnePlace(Run(events), e)
      {
        IncreasingIsOrdered(Run(events).added);
        Conservation(events, e);
      }
    } else if j: nat :| j < |ids| && !Less(START, ids[j]) {
      TooLowFromTheStart(ids, j);
    } else {
      var i: nat, j: nat :| i < j < |ids| && !Less(ids[i], ids[j]);
      TooLowLater(ids, i, j);
    }
  }

  /** New-message reads hand out every entry at most once, and in order of arrival. */
  lemma NewReadsRise(events: seq<Event>, i: nat, j: nat)
    requires Ordered(Run(events).added) && i < j < |Run(events).delivered|
    ensures Less(Run(events).delivered[i].id, Run(events).delivered[j].id)
    ensures Run(events).delivered[i] != Run(events).delivered[j]
  {
    RunKeepsInv(events);
    RisingAt(Run(events).delivered, i, j);
    LessIsAsymmetric(Run(events).delivered[i].id, Run(events).delivered[j].id);
  }

  /** In any run, whatever the ids, no two pending entries share one. */
  lemma {:induction false} PendingIdsDiffer(events: seq<Event>)
    ensures UniqueIds(Run(events).pending)
    decreases |events|
  {
    if events != [] {
      var s, e := Run(events[..|events| - 1]), events[|events| - 1];
      PendingIdsDiffer(events[..|events| - 1]);
      match e {
        case ReadNew(consumer, count) => SetAllIs(s.pending, consumer, Fresh(s, count));
        case ReadPending(consumer, count) => SetAllIs(s.pending, consumer, Take(Owned(s.pending, consumer), count));
        case Ack(id) => RemoveIs(s.pending, id);
        case AutoClaim(consumer, start, count) => ClaimIs(s.pending, consumer, start, count);
        case _ =>
      }
    }
  }

  /** Nothing but an acknowledgement takes an entry out of the pending ones. */
  lemma OnlyAckRemoves(events: seq<Event>, e: Event)
    requires !e.Ack?
    ensures PendingIds(Run(events).pending) <= PendingIds(Apply(Run(events), e).pending)
  {
    var s := Run(events);
    PendingIdsDiffer(events);
    match e
    case ReadNew(consumer, count) => SetAllIs(s.pending, consumer, Fresh(s, count));
    case ReadPending(consumer, count) => SetAllIs(s.pending, consumer, Take(Owned(s.pending, consumer), count));
    case AutoClaim(consumer, start, count) => ClaimIs(s.pending, consumer, start, count);
    case _ =>
  }

  // ---- ids compared as strings ----

  /** `1-10` comes after `1-9` but is less as a string: no later read sees it, and it is in no place at all. */
  lemma TenthEntryIsSkipped()
    ensures var nine, ten := Entry("1-9", "a"), Entry("1-10", "b");
            var before := Run([Add(nine, None), ReadNew("c", 10), Add(ten, None)]);
            var after := Apply(before, ReadNew("c", 10));
            && ten in before.added && after == before && !InOnePlace(after, ten)
  {
    var nine, ten := Entry("1-9", "a"), Entry("1-10", "b");
    RunThree(Add(nine, None), ReadNew("c", 10), Add(ten, None));
    AddAndRead(nine);
    var s := State([nine], "1-9", [Pending("c", nine)], [nine], [nine], {});
    assert [nine] + [ten] == [nine, ten];
    TenIsNotRead(Apply(s, Add(ten, None)), nine, ten);
  }

  lemma RunThree(a: Event, b: Event, c: Event)
    ensures Run([a, b, c]) == Apply(Apply(Apply(Init(), a), b), c)
  {
    var three, two, one := [a, b, c], [a, b], [a];
    assert three[..2] == two && two[..1] == one && one[..0] == [];
    assert Run(one) == Apply(Init(), a);
    assert Run(two) == Apply(Run(one), b);
  }

  lemma AddAndRead(nine: Entry)
    requires nine.id == "1-9"
    ensures Apply(Apply(Init(), Add(nine, None)), ReadNew("c", 10)) ==
            State([nine], "1-9", [Pending("c", nine)], [nine], [nine], {})
  {
    NineIsRead(nine);
    var s := Apply(Init(), Add(nine, None));
    assert s == State([nine], START, [], [nine], [], {});
    assert Fresh(s, 10) == [nine];
  }

  lemma NineIsRead(nine: Entry)
    requires nine.id == "1-9"
    ensures Newer([nine], START) == [nine] && SetAll([], "c", [nine]) == [Pending("c", nine)]
  {
    assert Less(START, "1-9");
    var one := [nine];
    assert one[..0] == [];
    assert Newer([], START) == [];
  }

  lemma TenIsNotRead(s: State, nine: Entry, ten: Entry)
    requires nine.id == "1-9" && ten.id == "1-10"
    requires s == State([nine, ten], "1-9", [Pending("c", nine)], [nine, ten], [nine], {})
    ensures Apply(s, ReadNew("c", 10)) == s && !InOnePlace(s, ten)
  {
    TenIsLess();
    var both, one := [nine, ten], [nine];
    assert both[..1] == one && one[..0] == [];
    assert Newer([], "1-9") == [] && Newer(one, "1-9") == [] && Newer(both, "1-9") == [];
  }

  lemma TenIsLess()
    ensures !Less("1-9", "1-10") && !Less("1-9", "1-9") && "1-10" != "1-9"
  {
    assert "1-9"[1..] == "-9" && "1-10"[1..] == "-10";
    assert "-9"[1..] == "9" && "-10"[1..] == "10";
    LessIsAsymmetric("1-9", "1-9");
  }

  // ---- the client ----

  /** The two states hold the same stream and group, whatever their histories. */
  predicate SameStore(a: State, b: State) {
    a.entries == b.entries && a.lastId == b.lastId && a.pending == b.pending
  }

  function AckAll(s: State, ids: seq<string>): State
    decreases |ids|
  {
    if ids == [] then s else AckAll(Apply(s, Ack(ids[0])), ids[1..])
  }

  lemma {:induction false} AckAllSnoc(s: State, ids: seq<string>, id: string)
    ensures AckAll(s, ids + [id]) == Apply(AckAll(s, ids), Ack(id))
    decreases |ids|
  {
    if ids == [] {
      assert ids + [id] == [id] && [id][1..] == [];
    } else {
      assert (ids + [id])[0] == ids[0] && (ids + [id])[1..] == ids[1..] + [id];
      AckAllSnoc(Apply(s, Ack(ids[0])), ids[1..], id);
    }
  }

  class InMemoryStream {
    var entries: seq<Entry>
    var lastId: string
    var pending: seq<Pending>

    /** The stored part of a state; the client keeps no history. */
    function Contents(): State
      reads this
    {
      State(entries, lastId, pending, [], [], {})
    }

    constructor ()
      ensures SameStore(Contents(), Init())
    {
      entries, lastId, pending := [], START, [];
    }

    method XAdd(entry: Entry, keep: Option<nat>) returns (id: string)
      modifies this
      ensures SameStore(Contents(), Apply(old(Contents()), Add(entry, keep))) && id == entry.id
    {
      entries := entries + [entry];
      if keep.Some? && keep.value > 0 && |entries| > keep.value {
        entries := entries[|entries| - keep.value..];
      }
      id := entry.id;
    }

    /** XREADGROUP with the id `>` (`onlyNew`), or with any other id. */
    method XReadGroup(consumer: string, count: nat, onlyNew: bool) returns (msgs: seq<Entry>)
      modifies this
      ensures var read := if onlyNew then ReadNew(consumer, count) else ReadPending(consumer, count);
              SameStore(Contents(), Apply(old(Contents()), read))
      ensures msgs == if onlyNew then Fresh(old(Contents()), count) else Take(Owned(old(pending), consumer), count)
    {
      if onlyNew {
        msgs := Take(Newer(entries, lastId), count);
        if |msgs| > 0 {
          lastId := msgs[|msgs| - 1].id;
        }
      } else {
        msgs := Take(Owned(pending, consumer), count);
      }
      ghost var before := pending;
      ghost var last := lastId;
      for i := 0 to |msgs|
        invariant pending == SetAll(before, consumer, msgs[..i])
        invariant entries == old(entries) && lastId == last
      {
        assert msgs[..i + 1][..i] == msgs[..i];
        pending := Set(pending, Pending(consumer, msgs[i]));
      }
      assert msgs[..|msgs|] == msgs;
    }

    /** Counts the ids that were pending. */
    method XAck(ids: seq<string>) returns (acked: nat)
      modifies this
      ensures SameStore(Contents(), AckAll(old(Contents()), ids))
      ensures acked + |pending| == |old(pending)|
    {
      acked := 0;
      for i := 0 to |ids|
        invariant SameStore(Contents(), AckAll(old(Contents()), ids[..i]))
        invariant acked + |pending| == |old(pending)|
      {
        assert ids[..i + 1] == ids[..i] + [ids[i]];
        AckAllSnoc(old(Contents()), ids[..i], ids[i]);
        var k := Find(pending, ids[i], 0);
        if k < |pending| {
          pending := pending[..k] + pending[k + 1..];
          acked := acked + 1;
        }
      }
      assert ids[..|ids|] == ids;
    }

    /**
     `None` stands for another mode than MAXLEN, or a threshold that is no size.  Every operator trims;
     the number of removed entries is returned for `=` and `~` only.
     */
    method XTrim(operator: string, maxLen: Option<nat>) returns (removed: nat)
      modifies this
      ensures SameStore(Contents(),
                        if maxLen.Some? then Apply(old(Contents()), Trim(maxLen.value)) else old(Contents()))
      ensures removed == if operator == "=" || operator == "~" then |old(entries)| - |entries| else 0
    {
      if maxLen.None? {
        return 0;
      }
      var originalLength := |entries|;
      if |entries| > maxLen.value {
        entries := entries[|entries| - maxLen.value..];
      }
      if operator == "=" || operator == "~" {
        return originalLength - |entries|;
      }
      return 0;
    }
  }
}
