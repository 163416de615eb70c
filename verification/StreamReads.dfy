/**
 What one command of the in-memory stream hands out, and to whom (packages/cache/src/mock.ts): how many
 entries a read delivers, whose they are then, which ones a claim takes, and which ones a limit leaves.
 */
module StreamReads {
  import opened Wrappers
  import opened StreamGroups

  // ---- new entries ----

  /**
   A read delivers as many entries as it asks for, or all that wait.  They become the reader's, and
   nobody else's pending entries change.
   */
  lemma ReadTakesAsMany(events: seq<Event>, consumer: string, count: nat)
    requires Ordered(Run(events).added)
    ensures var s, after := Run(events), Apply(Run(events), ReadNew(consumer, count));
            var n := |s.delivered|;
            && n <= |after.delivered| <= n + count && after.delivered[..n] == s.delivered
            && (|after.delivered| < n + count ==> forall e | e in s.entries :: e in after.delivered)
            && (forall p :: p in after.pending <==>
                  p in s.pending || (p.consumer == consumer && p.entry in after.delivered[n..]))
  {
    RunKeepsInv(events);
    ReadDelivers(Run(events), consumer, count);
    ReadersOwn(Run(events), consumer, count);
  }

  lemma ReadDelivers(s: State, consumer: string, count: nat)
    requires StreamInv(s) && Ordered(s.added)
    ensures var after := Apply(s, ReadNew(consumer, count));
            && after.delivered == s.delivered + Fresh(s, count) && |Fresh(s, count)| <= count
            && (|Fresh(s, count)| < count ==> forall e | e in s.entries :: e in after.delivered)
            && after.delivered[|s.delivered|..] == Fresh(s, count)
  {
    if |Fresh(s, count)| < count {
      AllAreRead(s, count);
    }
    assert (s.delivered + Fresh(s, count))[|s.delivered|..] == Fresh(s, count);
  }

  lemma ReadersOwn(s: State, consumer: string, count: nat)
    requires StreamInv(s) && GroupInv(s) && Ordered(s.added)
    ensures forall p :: p in Apply(s, ReadNew(consumer, count)).pending <==>
                        p in s.pending || (p.consumer == consumer && p.entry in Fresh(s, count))
  {
    var msgs := Fresh(s, count);
    FreshIs(s, count);
    ReadKeepsStream(s, consumer, count);
    RisingIdsApart(msgs);
    SetAllHolds(s.pending, consumer, msgs);
    PendingAreDelivered(s, msgs);
  }

  lemma AllAreRead(s: State, count: nat)
    requires StreamInv(s) && Ordered(s.added) && |Fresh(s, count)| < count
    ensures forall e | e in s.entries :: e in s.delivered + Fresh(s, count)
  {
    RisingSuffix(s.added, |s.added| - |s.entries|);
    NewerIs(s.entries, s.lastId);
    RisingIdsDiffer(s.added);
    forall e | e in s.entries && !Less(s.lastId, e.id) ensures e in s.delivered {
      assert e.id in Ids(s.delivered);
      var d :| d in s.delivered && d.id == e.id;
      assert d in s.added && e in s.added;
    }
  }

  lemma PendingAreDelivered(s: State, msgs: seq<Entry>)
    requires GroupInv(s) && Ids(msgs) * Ids(s.delivered) == {}
    ensures forall p | p in s.pending :: p.entry.id !in Ids(msgs)
  {
    forall p | p in s.pending ensures p.entry.id !in Ids(msgs) {
      assert p.entry.id in PendingIds(s.pending) + SetIds(s.acked);
      assert p.entry.id in Ids(s.delivered) && p.entry.id !in Ids(msgs) * Ids(s.delivered);
    }
  }

  ghost predicate IdsApart(msgs: seq<Entry>) {
    forall i, j :: 0 <= i < j < |msgs| ==> msgs[i].id != msgs[j].id
  }

  lemma RisingIdsApart(msgs: seq<Entry>)
    requires Rising(msgs)
    ensures IdsApart(msgs)
  {
    forall i, j | 0 <= i < j < |msgs| ensures msgs[i].id != msgs[j].id {
      RisingAt(msgs, i, j);
      LessIsAsymmetric(msgs[i].id, msgs[j].id);
    }
  }

  lemma SetHolds(pending: seq<Pending>, q: Pending)
    requires UniqueIds(pending)
    ensures UniqueIds(Set(pending, q))
    ensures forall p :: p in Set(pending, q) <==> p == q || (p in pending && p.entry.id != q.entry.id)
  {
    SetIs(pending, q);
    FindIs(pending, q.entry.id, 0);
    var i, r := Find(pending, q.entry.id, 0), Set(pending, q);
    assert q == if i < |pending| then r[i] else r[|pending|];
    forall p | p in pending && p.entry.id != q.entry.id ensures p in r {
      var k :| 0 <= k < |pending| && pending[k] == p;
      assert r[k] == p;
    }
    forall p | p in r ensures p == q || (p in pending && p.entry.id != q.entry.id) {
      var k :| 0 <= k < |r| && r[k] == p;
      assert k == i || (k < |pending| && pending[k] == p);
    }
  }

  lemma {:induction false} SetAllHolds(pending: seq<Pending>, consumer: string, msgs: seq<Entry>)
    requires UniqueIds(pending) && IdsApart(msgs)
    ensures UniqueIds(SetAll(pending, consumer, msgs))
    ensures forall p :: p in SetAll(pending, consumer, msgs) <==>
                        (p.consumer == consumer && p.entry in msgs) || (p in pending && p.entry.id !in Ids(msgs))
    decreases |msgs|
  {
    if msgs != [] {
      var n := |msgs| - 1;
      SetAllHolds(pending, consumer, msgs[..n]);
      SetHolds(SetAll(pending, consumer, msgs[..n]), Pending(consumer, msgs[n]));
      assert msgs == msgs[..n] + [msgs[n]];
    }
  }

  // ---- the reader's own entries ----

  /** Whose entries they are, and in the order in which they are kept: all of the consumer's and no others. */
  lemma {:induction false} OwnedAt(pending: seq<Pending>, consumer: string) returns (at: seq<nat>)
    ensures |at| == |Owned(pending, consumer)|
    ensures forall i :: 0 <= i < |at| ==>
              at[i] < |pending| && pending[at[i]] == Pending(consumer, Owned(pending, consumer)[i])
    ensures forall i, j :: 0 <= i < j < |at| ==> at[i] < at[j]
    ensures forall k: nat :: k < |pending| && pending[k].consumer == consumer ==> k in at
    decreases |pending|
  {
    if pending == [] {
      at := [];
    } else {
      var n := |pending| - 1;
      at := OwnedAt(pending[..n], consumer);
      if pending[n].consumer == consumer {
        at := at + [n];
      }
    }
  }

  /** Reading one's own pending entries again hands out the first of them, and changes nothing. */
  lemma RereadChangesNothing(events: seq<Event>, consumer: string, count: nat)
    ensures var s := Run(events); Apply(s, ReadPending(consumer, count)) == s
    ensures var mine, msgs := Owned(Run(events).pending, consumer), Take(Owned(Run(events).pending, consumer), count);
            msgs <= mine && |msgs| <= count && (|msgs| < count ==> msgs == mine)
  {
    var pending := Run(events).pending;
    PendingIdsDiffer(events);
    var at := OwnedAt(pending, consumer);
    var mine := Owned(pending, consumer);
    var msgs := Take(mine, count);
    assert msgs == mine[..|msgs|];
    forall i | 0 <= i < |msgs| ensures Pending(consumer, msgs[i]) in pending {
      assert pending[at[i]] == Pending(consumer, mine[i]);
    }
    SetAgain(pending, consumer, msgs);
  }

  lemma {:induction false} SetAgain(pending: seq<Pending>, consumer: string, msgs: seq<Entry>)
    requires UniqueIds(pending) && forall i :: 0 <= i < |msgs| ==> Pending(consumer, msgs[i]) in pending
    ensures SetAll(pending, consumer, msgs) == pending
    decreases |msgs|
  {
    if msgs != [] {
      var n := |msgs| - 1;
      SetAgain(pending, consumer, msgs[..n]);
      var k :| 0 <= k < |pending| && pending[k] == Pending(consumer, msgs[n]);
      FindIs(pending, msgs[n].id, 0);
      assert Find(pending, msgs[n].id, 0) == k;
    }
  }

  // ---- claims ----

  /** How many entries have an id from `start` on. */
  function From(pending: seq<Pending>, start: string): nat {
    if pending == [] then 0 else
      From(pending[..|pending| - 1], start) + if Less(pending[|pending| - 1].entry.id, start) then 0 else 1
  }

  lemma {:induction false} FromCons(pending: seq<Pending>, start: string)
    requires pending != []
    ensures From(pending, start) == From(pending[1..], start) + if Less(pending[0].entry.id, start) then 0 else 1
    decreases |pending|
  {
    var n := |pending| - 1;
    if n > 0 {
      FromCons(pending[..n], start);
      assert pending[..n][1..] == pending[1..][..n - 1];
    } else {
      assert pending[1..] == [] && pending[..n] == [];
    }
  }

  /** A claim takes the entries with an id from `start` on that have fewer than `count` such entries before them. */
  lemma {:induction false} ClaimTakesTheFirst(
      pending: seq<Pending>, consumer: string, start: string, count: nat, i: nat)
    requires i < |pending|
    ensures |Claim(pending, consumer, start, count)| == |pending|
    ensures Claim(pending, consumer, start, count)[i] ==
            if !Less(pending[i].entry.id, start) && From(pending[..i], start) < count
            then Pending(consumer, pending[i].entry) else pending[i]
    decreases |pending|
  {
    ClaimChangesOnlyOwners(pending, consumer, start, count);
    if count > 0 && i > 0 {
      var taken := !Less(pending[0].entry.id, start);
      ClaimTakesTheFirst(pending[1..], consumer, start, if taken then count - 1 else count, i - 1);
      FromCons(pending[..i], start);
      assert pending[..i][1..] == pending[1..][..i - 1];
    }
  }

  // ---- limits ----

  /** Trimming leaves the newest entries: as many as the limit, or all. */
  lemma TrimLeavesTheNewest(s: State, maxLen: nat)
    ensures var kept := Apply(s, Trim(maxLen)).entries;
            && |kept| == (if |s.entries| < maxLen then |s.entries| else maxLen)
            && s.entries == s.entries[..|s.entries| - |kept|] + kept
  {
  }

  /** Adding leaves the new entry last; of the others it drops the oldest, and those only beyond a positive limit. */
  lemma AddLeavesTheNewest(s: State, entry: Entry, keep: Option<nat>)
    ensures var kept := Apply(s, Add(entry, keep)).entries;
            && kept != [] && kept[|kept| - 1] == entry && |kept| <= |s.entries| + 1
            && kept[..|kept| - 1] == s.entries[|s.entries| + 1 - |kept|..]
            && |kept| == (if keep.None? || keep.value == 0 || |s.entries| < keep.value then |s.entries| + 1
                          else keep.value)
  {
    var n := |Apply(s, Add(entry, keep)).entries|;
    assert (s.entries + [entry])[|s.entries| + 1 - n..] == s.entries[|s.entries| + 1 - n..] + [entry];
  }
}
