/** The worker object of analytics-click.worker.ts, writing the two tables in place. */
module ClickWorker {
  import opened Wrappers
  import opened ClickBatch

  /** Messages whose enrichment succeeded. */
  function Enriched(ms: seq<Message>, ok: seq<bool>): seq<Message>
    requires |ms| == |ok|
  {
    if ms == [] then [] else
      (if ok[|ms| - 1] then Enriched(ms[..|ms| - 1], ok[..|ms| - 1]) + [ms[|ms| - 1]]
       else Enriched(ms[..|ms| - 1], ok[..|ms| - 1]))
  }

  function Unenriched(ms: seq<Message>, ok: seq<bool>): seq<Message>
    requires |ms| == |ok|
  {
    if ms == [] then [] else
      (if ok[|ms| - 1] then Unenriched(ms[..|ms| - 1], ok[..|ms| - 1])
       else Unenriched(ms[..|ms| - 1], ok[..|ms| - 1]) + [ms[|ms| - 1]])
  }

  function IdsOf(ms: seq<Message>): (ids: seq<Id>)
    ensures |ids| == |ms| && forall i :: 0 <= i < |ms| ==> ids[i] == ms[i].id
  {
    seq(|ms|, i requires 0 <= i < |ms| => ms[i].id)
  }

  lemma IdsOfSnoc(a: seq<Message>, m: Message)
    ensures multiset(IdsOf(a + [m])) == multiset(IdsOf(a)) + multiset{m.id}
  {
    assert IdsOf(a + [m]) == IdsOf(a) + [m.id];
  }

  /** Two lists that share out the ids of the batch. */
  ghost predicate Share(a: seq<Message>, b: seq<Message>, ms: seq<Message>) {
    multiset(IdsOf(a)) + multiset(IdsOf(b)) == multiset(IdsOf(ms))
  }

  lemma ShareSnoc(a: seq<Message>, b: seq<Message>, ms: seq<Message>)
    requires ms != [] && Share(a, b, ms[..|ms| - 1])
    ensures Share(a + [ms[|ms| - 1]], b, ms) && Share(a, b + [ms[|ms| - 1]], ms)
  {
    var n := |ms| - 1;
    assert ms == ms[..n] + [ms[n]];
    IdsOfSnoc(ms[..n], ms[n]);
    IdsOfSnoc(a, ms[n]);
    IdsOfSnoc(b, ms[n]);
  }

  /** Each message is enriched or not. */
  lemma {:induction false} EnrichedOrNot(ms: seq<Message>, ok: seq<bool>)
    requires |ms| == |ok|
    ensures Share(Enriched(ms, ok), Unenriched(ms, ok), ms)
    decreases |ms|
  {
    if ms != [] {
      var n := |ms| - 1;
      EnrichedOrNot(ms[..n], ok[..n]);
      ShareSnoc(Enriched(ms[..n], ok[..n]), Unenriched(ms[..n], ok[..n]), ms);
    }
  }

  lemma {:induction false} WhichAreEnriched(ms: seq<Message>, ok: seq<bool>, i: nat)
    requires |ms| == |ok| && i < |ms|
    ensures if ok[i] then ms[i] in Enriched(ms, ok) else ms[i] in Unenriched(ms, ok)
    decreases |ms|
  {
    var n := |ms| - 1;
    if i < n {
      WhichAreEnriched(ms[..n], ok[..n], i);
    }
  }

  /** The tables after one single-message transaction; a failure leaves them alone. */
  function AfterOne(db: Db, m: Message, works: bool): Db {
    if works && ProcessOne(db, m).Some? then ProcessOne(db, m).value else db
  }

  lemma {:induction false} FoldSnoc(db: Db, ms: seq<Message>, m: Message)
    ensures Fold(db, ms + [m]) == AfterOne(Fold(db, ms), m, true)
    decreases |ms|
  {
    if ms == [] {
      assert [m][1..] == [];
    } else {
      assert (ms + [m])[0] == ms[0] && (ms + [m])[1..] == ms[1..] + [m];
      FoldSnoc(AfterOne(db, ms[0], true), ms[1..], m);
    }
  }

  /**
   The messages whose own transaction succeeds, or those whose does not, in order; `ok` is false for a
   message that is not enriched or whose transaction the database breaks off.
   */
  function Succeeding(db: Db, ms: seq<Message>, ok: seq<bool>, want: bool): seq<Message>
    requires |ms| == |ok|
  {
    if ms == [] then [] else
      var n := |ms| - 1;
      var rest := Succeeding(db, ms[..n], ok[..n], want);
      var now := Fold(db, Enriched(ms[..n], ok[..n]));
      if (ok[n] && ProcessOne(now, ms[n]).Some?) == want then rest + [ms[n]] else rest
  }

  /** One message after the other: each is processed or has failed. */
  lemma {:induction false} SucceedingOrNot(db: Db, ms: seq<Message>, ok: seq<bool>)
    requires |ms| == |ok|
    ensures Share(Succeeding(db, ms, ok, true), Succeeding(db, ms, ok, false), ms)
    decreases |ms|
  {
    if ms != [] {
      var n := |ms| - 1;
      SucceedingOrNot(db, ms[..n], ok[..n]);
      ShareSnoc(Succeeding(db, ms[..n], ok[..n], true), Succeeding(db, ms[..n], ok[..n], false), ms);
    }
  }

  lemma {:induction false} SameLinks(db: Db, ms: seq<Message>)
    ensures Fold(db, ms).clicks.Keys == db.clicks.Keys
    decreases |ms|
  {
    if ms != [] {
      SameLinks(AfterOne(db, ms[0], true), ms[1..]);
    }
  }

  /** One that is broken off has failed; one that is not, and whose link exists, is processed. */
  lemma {:induction false} WhichSucceed(db: Db, ms: seq<Message>, ok: seq<bool>, i: nat)
    requires |ms| == |ok| && i < |ms|
    ensures !ok[i] ==> ms[i] in Succeeding(db, ms, ok, false)
    ensures ok[i] && ms[i].data.linkId in db.clicks ==> ms[i] in Succeeding(db, ms, ok, true)
    decreases |ms|
  {
    var n := |ms| - 1;
    if i < n {
      WhichSucceed(db, ms[..n], ok[..n], i);
    } else {
      SameLinks(db, Enriched(ms[..n], ok[..n]));
      OneSucceedsIff(Fold(db, Enriched(ms[..n], ok[..n])), ms[n]);
    }
  }

  lemma {:induction false} CountedAppend(ms: seq<Message>, m: Message, ids: set<string>, link: LinkId)
    ensures Counted(ms + [m], ids, link) ==
            Counted(ms, ids, link) + (if LogicalId(m) in ids && m.data.linkId == link then 1 else 0)
    decreases |ms|
  {
    if ms == [] {
      assert [m][1..] == [];
    } else {
      assert (ms + [m])[1..] == ms[1..] + [m];
      CountedAppend(ms[1..], m, ids, link);
    }
  }

  lemma {:induction false} InsertAllAppend(rows: map<Key, LinkId>, ms: seq<Message>, m: Message)
    ensures InsertAll(rows, ms + [m]) == AddRow(InsertAll(rows, ms), m)
    decreases |ms|
  {
    if ms == [] {
      assert [m][1..] == [];
    } else {
      assert (ms + [m])[1..] == ms[1..] + [m];
      InsertAllAppend(AddRow(rows, ms[0]), ms[1..], m);
    }
  }

  /** No counted message of the link is later than `latest`. */
  ghost predicate Latest(ms: seq<Message>, ids: set<string>, link: LinkId, latest: int) {
    forall m | m in ms && LogicalId(m) in ids && m.data.linkId == link :: m.data.timestamp <= latest
  }

  /**
   The list holds one entry for each link with a counted message, with its count and its latest
   time; `at` finds the entry of a link.
   */
  ghost predicate Indexed(counts: seq<LinkClickCount>, at: map<LinkId, nat>, ms: seq<Message>, ids: set<string>) {
    && (forall l :: l in at <==> Counted(ms, ids, l) > 0)
    && (forall l | l in at :: at[l] < |counts| && counts[at[l]].linkId == l)
    && (forall i | 0 <= i < |counts| :: counts[i].linkId in at && at[counts[i].linkId] == i)
    && (forall i | 0 <= i < |counts| ::
          && counts[i].count == Counted(ms, ids, counts[i].linkId)
          && Latest(ms, ids, counts[i].linkId, counts[i].lastClickedAt))
  }

  /** What the loop body does to the Map for one counted message. */
  function Bump(counts: seq<LinkClickCount>, at: map<LinkId, nat>, m: Message): seq<LinkClickCount>
    requires m.data.linkId in at ==> at[m.data.linkId] < |counts|
  {
    var l := m.data.linkId;
    if l in at then
      var c := counts[at[l]];
      counts[at[l] := LinkClickCount(l, c.count + 1,
        if m.data.timestamp > c.lastClickedAt then m.data.timestamp else c.lastClickedAt)]
    else
      counts + [LinkClickCount(l, 1, m.data.timestamp)]
  }

  lemma {:induction false} CountedHas(ms: seq<Message>, ids: set<string>, m: Message)
    requires m in ms && LogicalId(m) in ids
    ensures Counted(ms, ids, m.data.linkId) > 0
    decreases |ms|
  {
    if ms[0] != m {
      CountedHas(ms[1..], ids, m);
    }
  }

  lemma BumpKeepsIndex(
      counts: seq<LinkClickCount>, at: map<LinkId, nat>, ms: seq<Message>, m: Message, ids: set<string>)
    requires Indexed(counts, at, ms, ids) && LogicalId(m) in ids
    ensures var l := m.data.linkId;
            Indexed(Bump(counts, at, m), if l in at then at else at[l := |counts|], ms + [m], ids)
  {
    var l := m.data.linkId;
    var counts' := Bump(counts, at, m);
    forall k ensures Counted(ms + [m], ids, k) == Counted(ms, ids, k) + (if k == l then 1 else 0) {
      CountedAppend(ms, m, ids, k);
    }
    forall i | 0 <= i < |counts'| ensures Latest(ms + [m], ids, counts'[i].linkId, counts'[i].lastClickedAt) {
      assert i < |counts| ==> Latest(ms, ids, counts[i].linkId, counts[i].lastClickedAt);
      assert forall x | x in ms + [m] :: x in ms || x == m;
      assert l !in at ==> forall x | x in ms && LogicalId(x) in ids :: x.data.linkId != l by {
        forall x | x in ms && LogicalId(x) in ids ensures x.data.linkId in at {
          CountedHas(ms, ids, x);
        }
      }
    }
  }

  lemma SkipKeepsIndex(
      counts: seq<LinkClickCount>, at: map<LinkId, nat>, ms: seq<Message>, m: Message, ids: set<string>)
    requires Indexed(counts, at, ms, ids) && LogicalId(m) !in ids
    ensures Indexed(counts, at, ms + [m], ids)
  {
    forall k ensures Counted(ms + [m], ids, k) == Counted(ms, ids, k) {
      CountedAppend(ms, m, ids, k);
    }
    forall i | 0 <= i < |counts| ensures Latest(ms + [m], ids, counts[i].linkId, counts[i].lastClickedAt) {
      assert Latest(ms, ids, counts[i].linkId, counts[i].lastClickedAt);
    }
  }

  /** The position of the first counted message of the link, or the end. */
  function First(ms: seq<Message>, ids: set<string>, link: LinkId): (n: nat)
    ensures n <= |ms|
  {
    if ms == [] || (LogicalId(ms[0]) in ids && ms[0].data.linkId == link) then 0 else 1 + First(ms[1..], ids, link)
  }

  lemma {:induction false} FirstAppend(ms: seq<Message>, m: Message, ids: set<string>, link: LinkId)
    ensures First(ms + [m], ids, link) ==
            if First(ms, ids, link) < |ms| || (LogicalId(m) in ids && m.data.linkId == link) then First(ms, ids, link)
            else |ms| + 1
    decreases |ms|
  {
    if ms == [] {
      assert [m][1..] == [];
    } else {
      assert (ms + [m])[0] == ms[0] && (ms + [m])[1..] == ms[1..] + [m];
      FirstAppend(ms[1..], m, ids, link);
    }
  }

  lemma {:induction false} FirstIsCounted(ms: seq<Message>, ids: set<string>, link: LinkId)
    ensures First(ms, ids, link) < |ms| <==> Counted(ms, ids, link) > 0
    decreases |ms|
  {
    if ms != [] {
      FirstIsCounted(ms[1..], ids, link);
    }
  }

  /** Links come in the order of their first counted message. */
  ghost predicate ByAppearance(counts: seq<LinkClickCount>, ms: seq<Message>, ids: set<string>) {
    && (forall i | 0 <= i < |counts| :: First(ms, ids, counts[i].linkId) < |ms|)
    && (forall i, j | 0 <= i < j < |counts| :: First(ms, ids, counts[i].linkId) < First(ms, ids, counts[j].linkId))
  }

  /** A counted message of the link has this time. */
  ghost predicate IsTimeOf(ms: seq<Message>, ids: set<string>, link: LinkId, time: int) {
    exists m :: m in ms && LogicalId(m) in ids && m.data.linkId == link && m.data.timestamp == time
  }

  ghost predicate Attained(counts: seq<LinkClickCount>, ms: seq<Message>, ids: set<string>) {
    forall i | 0 <= i < |counts| :: IsTimeOf(ms, ids, counts[i].linkId, counts[i].lastClickedAt)
  }

  /** Appending a message moves no first appearance, and the new link's is last. */
  lemma AppendKeepsOrder(
      counts: seq<LinkClickCount>, at: map<LinkId, nat>, ms: seq<Message>, m: Message, ids: set<string>)
    requires Indexed(counts, at, ms, ids) && ByAppearance(counts, ms, ids)
    ensures ByAppearance(counts, ms + [m], ids)
    ensures LogicalId(m) in ids && m.data.linkId !in at ==>
              First(ms + [m], ids, m.data.linkId) == |ms|
              && forall i | 0 <= i < |counts| :: First(ms + [m], ids, counts[i].linkId) < |ms|
  {
    forall i | 0 <= i < |counts|
      ensures First(ms + [m], ids, counts[i].linkId) == First(ms, ids, counts[i].linkId)
    {
      FirstAppend(ms, m, ids, counts[i].linkId);
    }
    FirstAppend(ms, m, ids, m.data.linkId);
    FirstIsCounted(ms, ids, m.data.linkId);
  }

  lemma BumpKeepsOrder(
      counts: seq<LinkClickCount>, at: map<LinkId, nat>, ms: seq<Message>, m: Message, ids: set<string>)
    requires Indexed(counts, at, ms, ids) && ByAppearance(counts, ms, ids) && LogicalId(m) in ids
    ensures ByAppearance(Bump(counts, at, m), ms + [m], ids)
  {
    AppendKeepsOrder(counts, at, ms, m, ids);
    var counts' := Bump(counts, at, m);
    assert forall i | 0 <= i < |counts| :: counts'[i].linkId == counts[i].linkId;
  }

  lemma LongerKeepsAttained(counts: seq<LinkClickCount>, ms: seq<Message>, m: Message, ids: set<string>)
    requires Attained(counts, ms, ids)
    ensures Attained(counts, ms + [m], ids)
  {
    forall i | 0 <= i < |counts| ensures IsTimeOf(ms + [m], ids, counts[i].linkId, counts[i].lastClickedAt) {
      assert IsTimeOf(ms, ids, counts[i].linkId, counts[i].lastClickedAt);
      var x :| x in ms && LogicalId(x) in ids && x.data.linkId == counts[i].linkId
               && x.data.timestamp == counts[i].lastClickedAt;
      assert x in ms + [m];
    }
  }

  lemma BumpKeepsAttained(
      counts: seq<LinkClickCount>, at: map<LinkId, nat>, ms: seq<Message>, m: Message, ids: set<string>)
    requires Indexed(counts, at, ms, ids) && Attained(counts, ms, ids) && LogicalId(m) in ids
    ensures Attained(Bump(counts, at, m), ms + [m], ids)
  {
    LongerKeepsAttained(counts, ms, m, ids);
    var counts' := Bump(counts, at, m);
    assert IsTimeOf(ms + [m], ids, m.data.linkId, m.data.timestamp) by {
      assert m in ms + [m];
    }
    forall i | 0 <= i < |counts'| ensures IsTimeOf(ms + [m], ids, counts'[i].linkId, counts'[i].lastClickedAt) {
      if i < |counts| {
        assert IsTimeOf(ms + [m], ids, counts[i].linkId, counts[i].lastClickedAt);
      }
    }
  }

  /** One entry for each link, by first appearance, with its count and the latest time of its messages. */
  method BuildLinkClickCounts(ms: seq<Message>, ids: set<string>)
    returns (counts: seq<LinkClickCount>, at: map<LinkId, nat>)
    ensures Indexed(counts, at, ms, ids) && ByAppearance(counts, ms, ids) && Attained(counts, ms, ids)
  {
    counts, at := [], map[];
    for n := 0 to |ms|
      invariant Indexed(counts, at, ms[..n], ids)
      invariant ByAppearance(counts, ms[..n], ids) && Attained(counts, ms[..n], ids)
    {
      var m := ms[n];
      var l := m.data.linkId;
      assert ms[..n + 1] == ms[..n] + [m];
      if LogicalId(m) !in ids {
        SkipKeepsIndex(counts, at, ms[..n], m, ids);
        AppendKeepsOrder(counts, at, ms[..n], m, ids);
        LongerKeepsAttained(counts, ms[..n], m, ids);
        continue;
      }
      BumpKeepsIndex(counts, at, ms[..n], m, ids);
      BumpKeepsOrder(counts, at, ms[..n], m, ids);
      BumpKeepsAttained(counts, at, ms[..n], m, ids);
      if l in at {
        var c := counts[at[l]];
        var latest := if m.data.timestamp > c.lastClickedAt then m.data.timestamp else c.lastClickedAt;
        counts := counts[at[l] := LinkClickCount(l, c.count + 1, latest)];
      } else {
        at := at[l := |counts|];
        counts := counts + [LinkClickCount(l, 1, m.data.timestamp)];
      }
    }
    assert ms[..|ms|] == ms;
  }

  /** The counters after the updates of the first `n` entries. */
  ghost function Updated(clicks: map<LinkId, int>, at: map<LinkId, nat>, n: nat, ms: seq<Message>, ids: set<string>)
    : map<LinkId, int>
  {
    map l | l in clicks :: if l in at && at[l] < n then clicks[l] + Counted(ms, ids, l) else clicks[l]
  }

  /** One UPDATE after the other. */
  function Updates(clicks: map<LinkId, int>, counts: seq<LinkClickCount>): map<LinkId, int> {
    if counts == [] then clicks else
      var now := Updates(clicks, counts[..|counts| - 1]);
      var c := counts[|counts| - 1];
      if c.linkId in now then now[c.linkId := now[c.linkId] + c.count] else now
  }

  lemma {:induction false} UpdatesAreUpdated(
      clicks: map<LinkId, int>, counts: seq<LinkClickCount>, at: map<LinkId, nat>, n: nat, ms: seq<Message>,
      ids: set<string>)
    requires Indexed(counts, at, ms, ids) && n <= |counts|
    ensures Updates(clicks, counts[..n]) == Updated(clicks, at, n, ms, ids)
    decreases n
  {
    if n > 0 {
      assert counts[..n][..n - 1] == counts[..n - 1];
      UpdatesAreUpdated(clicks, counts, at, n - 1, ms, ids);
      OneMoreUpdated(clicks, counts, at, n - 1, ms, ids);
    }
  }

  lemma OneMoreUpdated(
      clicks: map<LinkId, int>, counts: seq<LinkClickCount>, at: map<LinkId, nat>, n: nat, ms: seq<Message>,
      ids: set<string>)
    requires Indexed(counts, at, ms, ids) && n < |counts|
    ensures var now, c := Updated(clicks, at, n, ms, ids), counts[n];
            Updated(clicks, at, n + 1, ms, ids) ==
            if c.linkId in now then now[c.linkId := now[c.linkId] + c.count] else now
  {
  }

  /** Updating each link of the summary adds each link's counted messages, and nothing else. */
  lemma UpdatesAddTheCounts(
      clicks: map<LinkId, int>, counts: seq<LinkClickCount>, at: map<LinkId, nat>, ms: seq<Message>, ids: set<string>)
    requires Indexed(counts, at, ms, ids)
    ensures Updates(clicks, counts) == map l | l in clicks :: clicks[l] + Counted(ms, ids, l)
  {
    assert counts[..|counts|] == counts;
    UpdatesAreUpdated(clicks, counts, at, |counts|, ms, ids);
    forall l | l in clicks
      ensures Updated(clicks, at, |counts|, ms, ids)[l] == clicks[l] + Counted(ms, ids, l)
    {
      assert l in at ==> at[l] < |counts|;
    }
  }

  /** Whatever happens to a batch, each of its messages is reported once, and an unenriched one as failed. */
  lemma ReportedOnce(db: Db, ms: seq<Message>, enrichedOk: seq<bool>, works: bool)
    requires |ms| == |enrichedOk|
    ensures var ok := if works then enrichedOk else seq(|ms|, _ => false);
            Share(Succeeding(db, ms, ok, true), Succeeding(db, ms, ok, false), ms)
    ensures Share(Enriched(ms, enrichedOk), Unenriched(ms, enrichedOk), ms)
    ensures Share([], Unenriched(ms, enrichedOk) + Enriched(ms, enrichedOk), ms)
    ensures forall i :: 0 <= i < |ms| && !enrichedOk[i] ==>
              && ms[i] in Unenriched(ms, enrichedOk)
              && ms[i] in Succeeding(db, ms, if works then enrichedOk else seq(|ms|, _ => false), false)
  {
    var ok := if works then enrichedOk else seq(|ms|, _ => false);
    var enriched, rest := Enriched(ms, enrichedOk), Unenriched(ms, enrichedOk);
    SucceedingOrNot(db, ms, ok);
    EnrichedOrNot(ms, enrichedOk);
    assert IdsOf(rest + enriched) == IdsOf(rest) + IdsOf(enriched);
    forall i | 0 <= i < |ms| && !enrichedOk[i]
      ensures ms[i] in rest && ms[i] in Succeeding(db, ms, ok, false)
    {
      WhichAreEnriched(ms, enrichedOk, i);
      WhichSucceed(db, ms, ok, i);
    }
  }

  /** Sorts the settled enrichments: those that worked, and the messages that failed already. */
  method EnrichAll(ms: seq<Message>, ok: seq<bool>) returns (enriched: seq<Message>, failed: seq<Message>)
    requires |ms| == |ok|
    ensures enriched == Enriched(ms, ok) && failed == Unenriched(ms, ok)
  {
    enriched, failed := [], [];
    for i := 0 to |ms|
      invariant enriched == Enriched(ms[..i], ok[..i]) && failed == Unenriched(ms[..i], ok[..i])
    {
      assert ms[..i + 1][..i] == ms[..i] && ok[..i + 1][..i] == ok[..i];
      if ok[i] {
        enriched := enriched + [ms[i]];
      } else {
        failed := failed + [ms[i]];
      }
    }
    assert ms[..|ms|] == ms && ok[..|ms|] == ok;
  }

  class AnalyticsClickWorker {
    var rows: map<Key, LinkId>
    var clicks: map<LinkId, int>

    function Tables(): Db
      reads this
    {
      Db(rows, clicks)
    }

    /** One message in one transaction; `works` is false when enrichment or the database fails. */
    method ProcessMessage(m: Message, works: bool) returns (ok: bool)
      modifies this
      ensures Tables() == AfterOne(old(Tables()), m, works)
      ensures ok <==> works && ProcessOne(old(Tables()), m).Some?
      ensures ok ==> RowKey(m) in rows
    {
      if !works {
        return false;
      }
      var key := RowKey(m);
      if key in rows {
        return true;
      }
      if m.data.linkId !in clicks {
        return false;
      }
      rows := rows[key := m.data.linkId];
      clicks := clicks[m.data.linkId := clicks[m.data.linkId] + 1];
      return true;
    }

    /** One UPDATE for each entry of the summary. */
    method UpdateLinks(counts: seq<LinkClickCount>)
      modifies this`clicks
      ensures clicks == Updates(old(clicks), counts)
    {
      for n := 0 to |counts|
        invariant clicks == Updates(old(clicks), counts[..n])
      {
        assert counts[..n + 1][..n] == counts[..n];
        var c := counts[n];
        if c.linkId in clicks {
          clicks := clicks[c.linkId := clicks[c.linkId] + c.count];
        }
      }
      assert counts[..|counts|] == counts;
    }

    method CountAndUpdate(ms: seq<Message>, ids: set<string>)
      modifies this`clicks
      ensures clicks == map l | l in old(clicks) :: old(clicks)[l] + Counted(ms, ids, l)
    {
      var counts, at := BuildLinkClickCounts(ms, ids);
      UpdatesAddTheCounts(clicks, counts, at, ms, ids);
      UpdateLinks(counts);
    }

    /** INSERT ... ON CONFLICT DO NOTHING, row by row. */
    method InsertRows(ms: seq<Message>) returns (after: map<Key, LinkId>)
      ensures after == InsertAll(rows, ms)
    {
      after := rows;
      for n := 0 to |ms|
        invariant after == InsertAll(rows, ms[..n])
      {
        assert ms[..n + 1] == ms[..n] + [ms[n]];
        InsertAllAppend(rows, ms[..n], ms[n]);
        if RowKey(ms[n]) !in after {
          after := after[RowKey(ms[n]) := ms[n].data.linkId];
        }
      }
      assert ms[..|ms|] == ms;
    }

    /** The transaction of the bulk path; `works` is false when the database fails before commit. */
    method PersistBatch(ms: seq<Message>, works: bool) returns (ok: bool)
      modifies this
      ensures ok <==> works && Bulk(old(Tables()), ms).Some?
      ensures Tables() == if ok then Bulk(old(Tables()), ms).value else old(Tables())
    {
      if !works {
        return false;
      }
      var after := InsertRows(ms);
      if !ForeignKeysHold(Tables(), ms) {
        return false;
      }
      var ids := set k | k in after && k !in rows :: k.logicalId;
      assert ids == InsertedIds(rows, ms);
      CountAndUpdate(ms, ids);
      rows := after;
      return true;
    }

    /** WorkerBase.processMessages, one message at a time; `ok` says which of them are not broken off. */
    method ProcessSequentially(ms: seq<Message>, ok: seq<bool>) returns (processedIds: seq<Id>, failed: seq<Message>)
      requires |ms| == |ok|
      modifies this
      ensures Tables() == Fold(old(Tables()), Enriched(ms, ok))
      ensures processedIds == IdsOf(Succeeding(old(Tables()), ms, ok, true))
      ensures failed == Succeeding(old(Tables()), ms, ok, false)
    {
      processedIds, failed := [], [];
      ghost var processed: seq<Message> := [];
      for i := 0 to |ms|
        invariant Tables() == Fold(old(Tables()), Enriched(ms[..i], ok[..i]))
        invariant processed == Succeeding(old(Tables()), ms[..i], ok[..i], true)
        invariant failed == Succeeding(old(Tables()), ms[..i], ok[..i], false)
        invariant processedIds == IdsOf(processed)
      {
        assert ms[..i + 1][..i] == ms[..i] && ok[..i + 1][..i] == ok[..i];
        FoldSnoc(old(Tables()), Enriched(ms[..i], ok[..i]), ms[i]);
        var done := ProcessMessage(ms[i], ok[i]);
        if done {
          processedIds := processedIds + [ms[i].id];
          processed := processed + [ms[i]];
        } else {
          failed := failed + [ms[i]];
        }
      }
      assert ms[..|ms|] == ms && ok[..|ms|] == ok;
    }

    /**
     A batch of one goes to the sequential path.  The bulk path for two messages or more: every enriched
     message is processed or every one has failed, and the ones that were not enriched have failed in
     any case.
     */
    method ProcessMessages(ms: seq<Message>, enrichedOk: seq<bool>, works: bool)
      returns (processedIds: seq<Id>, failed: seq<Message>)
      requires |ms| == |enrichedOk|
      modifies this
      ensures |ms| <= 1 ==>
                var ok := if works then enrichedOk else seq(|ms|, _ => false);
                && Tables() == Fold(old(Tables()), Enriched(ms, ok))
                && processedIds == IdsOf(Succeeding(old(Tables()), ms, ok, true))
                && failed == Succeeding(old(Tables()), ms, ok, false)
      ensures |ms| > 1 ==>
              var enriched := Enriched(ms, enrichedOk);
              var run := Bulk(old(Tables()), enriched);
              if enriched != [] && works && run.Some?
              then Tables() == run.value && processedIds == IdsOf(enriched) && failed == Unenriched(ms, enrichedOk)
              else Tables() == old(Tables()) && processedIds == [] && failed == Unenriched(ms, enrichedOk) + enriched
      ensures multiset(processedIds) + multiset(IdsOf(failed)) == multiset(IdsOf(ms))
      ensures forall i :: 0 <= i < |ms| && !enrichedOk[i] ==> ms[i] in failed
    {
      ReportedOnce(Tables(), ms, enrichedOk, works);
      if |ms| <= 1 {
        processedIds, failed := ProcessSequentially(ms, if works then enrichedOk else seq(|ms|, _ => false));
        return;
      }
      processedIds := [];
      var enriched;
      enriched, failed := EnrichAll(ms, enrichedOk);
      if enriched == [] {
        return;
      }
      var ok := PersistBatch(enriched, works);
      if ok {
        for i := 0 to |enriched|
          invariant processedIds == IdsOf(enriched[..i])
        {
          processedIds := processedIds + [enriched[i].id];
        }
        assert enriched[..|enriched|] == enriched;
      } else {
        failed := failed + enriched;
      }
    }
  }
}
