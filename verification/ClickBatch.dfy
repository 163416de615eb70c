/**
 One delivery of click messages to apps/worker/src/workers/analytics-click.worker.ts: the
 sequential path, the bulk path, and the two database tables they write.
 */
module ClickBatch {
  import opened Wrappers

  type Id = string
  type LinkId = string

  /** The fields of a stream payload that matter here; an empty `eventId` is an absent one. */
  datatype Payload = Payload(
    eventId: string,
    originalId: Option<string>,
    linkId: LinkId,
    timestamp: int,
    retryCount: nat)

  datatype Message = Message(id: Id, data: Payload)

  /** The unique index of analytics_events: logical id and creation time. */
  datatype Key = Key(logicalId: string, timestamp: int)

  datatype Db = Db(rows: map<Key, LinkId>, clicks: map<LinkId, int>)

  datatype LinkClickCount = LinkClickCount(linkId: LinkId, count: nat, lastClickedAt: int)

  function LogicalId(m: Message): string {
    if m.data.eventId != "" then m.data.eventId
    else if m.data.originalId.Some? && m.data.originalId.value != "" then m.data.originalId.value
    else m.id
  }

  /**
   Clicks with event ids share a logical id exactly if they share the event id; clicks without one, if
   they share the id of their first entry.
   */
  lemma DifferentClicksDiffer(m: Message, n: Message)
    ensures m.data.eventId != "" && n.data.eventId != "" ==>
              (LogicalId(m) == LogicalId(n) <==> m.data.eventId == n.data.eventId)
    ensures m.data.eventId == "" && n.data.eventId == "" ==>
              (LogicalId(m) == LogicalId(n) <==> FirstId(m) == FirstId(n))
  {
  }

  /** The id of the entry that a click was first published in. */
  function FirstId(m: Message): string {
    match m.data.originalId
    case None => m.id
    case Some(first) => if first == "" then m.id else first
  }

  function RowKey(m: Message): Key {
    Key(LogicalId(m), m.data.timestamp)
  }

  /** WorkerBase.buildRetryPayload. */
  function RetryPayload(m: Message): Payload {
    m.data.(retryCount := m.data.retryCount + 1,
            originalId := if m.data.originalId.Some? then m.data.originalId else Some(m.id))
  }

  /** A retry is one more try of the same click, and remembers the entry it was first published in. */
  lemma RetryIsTheSameClick(m: Message)
    ensures var r := RetryPayload(m);
            && r.retryCount == m.data.retryCount + 1
            && r.eventId == m.data.eventId && r.linkId == m.data.linkId && r.timestamp == m.data.timestamp
            && r.originalId == (if m.data.originalId.None? then Some(m.id) else m.data.originalId)
  {
  }

  /** A retry keeps its logical id under every new entry id, unless it carries an empty originalId. */
  lemma RetryKeepsLogicalIdIff(m: Message)
    requires m.id != ""
    ensures (forall newId :: LogicalId(Message(newId, RetryPayload(m))) == LogicalId(m)) <==>
              m.data.eventId != "" || m.data.originalId != Some("")
  {
    if m.data.eventId == "" && m.data.originalId == Some("") {
      assert LogicalId(Message("", RetryPayload(m))) == "";
    }
  }

  // ---- the tables ----

  function RowsOf(rows: map<Key, LinkId>, link: LinkId): set<Key> {
    set k | k in rows && rows[k] == link
  }

  /** Every counter is its start plus the link's rows. */
  ghost predicate Exact(db: Db, start: map<LinkId, int>) {
    && db.clicks.Keys == start.Keys
    && (forall k | k in db.rows :: db.rows[k] in db.clicks)
    && (forall l | l in db.clicks :: db.clicks[l] == start[l] + |RowsOf(db.rows, l)|)
  }

  // ---- the sequential path ----

  /** One transaction; None when the foreign key rolls it back. */
  function ProcessOne(db: Db, m: Message): Option<Db> {
    if RowKey(m) in db.rows then Some(db)
    else if m.data.linkId !in db.clicks then None
    else Some(Db(db.rows[RowKey(m) := m.data.linkId],
                 db.clicks[m.data.linkId := db.clicks[m.data.linkId] + 1]))
  }

  /** Messages one after the other; a failing one changes nothing. */
  function Fold(db: Db, ms: seq<Message>): Db
    decreases |ms|
  {
    if ms == [] then db else
      match ProcessOne(db, ms[0])
      case None => Fold(db, ms[1..])
      case Some(next) => Fold(next, ms[1..])
  }

  // ---- the bulk path ----

  function AddRow(rows: map<Key, LinkId>, m: Message): map<Key, LinkId> {
    if RowKey(m) in rows then rows else rows[RowKey(m) := m.data.linkId]
  }

  /** INSERT ... ON CONFLICT DO NOTHING of all rows in one statement. */
  function InsertAll(rows: map<Key, LinkId>, ms: seq<Message>): (r: map<Key, LinkId>)
    ensures rows.Keys <= r.Keys && forall k | k in rows :: r[k] == rows[k]
    decreases |ms|
  {
    if ms == [] then rows else InsertAll(AddRow(rows, ms[0]), ms[1..])
  }

  /** The logical ids of the rows that RETURNING reports. */
  function InsertedIds(rows: map<Key, LinkId>, ms: seq<Message>): set<string> {
    var after := InsertAll(rows, ms);
    set k | k in after && k !in rows :: k.logicalId
  }

  function Counted(ms: seq<Message>, ids: set<string>, link: LinkId): nat {
    if ms == [] then 0
    else (if LogicalId(ms[0]) in ids && ms[0].data.linkId == link then 1 else 0) + Counted(ms[1..], ids, link)
  }

  predicate ForeignKeysHold(db: Db, ms: seq<Message>) {
    var after := InsertAll(db.rows, ms);
    forall k | k in after && k !in db.rows :: after[k] in db.clicks
  }

  /** The whole transaction: insert, count by membership of the logical id, update each link. */
  function Bulk(db: Db, ms: seq<Message>): Option<Db> {
    if ForeignKeysHold(db, ms) then
      var ids := InsertedIds(db.rows, ms);
      Some(Db(InsertAll(db.rows, ms), map l | l in db.clicks :: db.clicks[l] + Counted(ms, ids, l)))
    else None
  }

  predicate DistinctIds(ms: seq<Message>) {
    forall i, j :: 0 <= i < j < |ms| ==> LogicalId(ms[i]) != LogicalId(ms[j])
  }

  // ---- what the paths keep, and when they agree ----

  lemma OneMoreRow(rows: map<Key, LinkId>, key: Key, link: LinkId, l: LinkId)
    requires key !in rows
    ensures |RowsOf(rows[key := link], l)| == |RowsOf(rows, l)| + (if l == link then 1 else 0)
  {
    var after := rows[key := link];
    if l == link {
      assert RowsOf(after, l) == RowsOf(rows, l) + {key};
    } else {
      assert RowsOf(after, l) == RowsOf(rows, l);
    }
  }

  lemma ProcessOneKeepsExact(db: Db, m: Message, start: map<LinkId, int>)
    requires Exact(db, start) && ProcessOne(db, m).Some?
    ensures Exact(ProcessOne(db, m).value, start)
  {
    if RowKey(m) !in db.rows {
      var next := ProcessOne(db, m).value;
      forall l | l in next.clicks ensures next.clicks[l] == start[l] + |RowsOf(next.rows, l)| {
        OneMoreRow(db.rows, RowKey(m), m.data.linkId, l);
      }
    }
  }

  lemma {:induction false} FoldKeepsExact(db: Db, ms: seq<Message>, start: map<LinkId, int>)
    requires Exact(db, start)
    ensures Exact(Fold(db, ms), start)
    decreases |ms|
  {
    if ms != [] {
      match ProcessOne(db, ms[0])
      case None => FoldKeepsExact(db, ms[1..], start);
      case Some(next) =>
        ProcessOneKeepsExact(db, ms[0], start);
        FoldKeepsExact(next, ms[1..], start);
    }
  }

  /** Rows only come from the batch. */
  lemma {:induction false} NewRowsComeFromTheBatch(rows: map<Key, LinkId>, ms: seq<Message>, k: Key)
    requires k in InsertAll(rows, ms) && k !in rows
    ensures exists i :: 0 <= i < |ms| && RowKey(ms[i]) == k && ms[i].data.linkId == InsertAll(rows, ms)[k]
    decreases |ms|
  {
    if RowKey(ms[0]) != k {
      NewRowsComeFromTheBatch(AddRow(rows, ms[0]), ms[1..], k);
      var i :| 0 <= i < |ms[1..]| && RowKey(ms[1..][i]) == k
               && ms[1..][i].data.linkId == InsertAll(rows, ms)[k];
      assert ms[i + 1] == ms[1..][i];
    } else {
      assert AddRow(rows, ms[0])[k] == ms[0].data.linkId;
    }
  }

  lemma {:induction false} EveryRowIsThere(rows: map<Key, LinkId>, ms: seq<Message>, i: nat)
    requires i < |ms|
    ensures RowKey(ms[i]) in InsertAll(rows, ms)
    decreases |ms|
  {
    if i > 0 {
      EveryRowIsThere(AddRow(rows, ms[0]), ms[1..], i - 1);
    }
  }

  lemma {:induction false} ForeignIdsDoNotCount(ms: seq<Message>, ids: set<string>, id: string, link: LinkId)
    requires forall i :: 0 <= i < |ms| ==> LogicalId(ms[i]) != id
    ensures Counted(ms, ids + {id}, link) == Counted(ms, ids, link)
    decreases |ms|
  {
    if ms != [] {
      ForeignIdsDoNotCount(ms[1..], ids, id, link);
    }
  }

  /** Peeling the first message off a batch with distinct ids. */
  lemma InsertedIdsPeel(rows: map<Key, LinkId>, ms: seq<Message>)
    requires ms != [] && DistinctIds(ms)
    ensures InsertedIds(rows, ms) ==
            InsertedIds(AddRow(rows, ms[0]), ms[1..]) + (if RowKey(ms[0]) in rows then {} else {LogicalId(ms[0])})
    ensures LogicalId(ms[0]) !in InsertedIds(AddRow(rows, ms[0]), ms[1..])
  {
    var rest := AddRow(rows, ms[0]);
    var after := InsertAll(rows, ms);
    assert after == InsertAll(rest, ms[1..]);
    forall k | k in after && k !in rest ensures k.logicalId != LogicalId(ms[0]) {
      NewRowsComeFromTheBatch(rest, ms[1..], k);
      var i :| 0 <= i < |ms[1..]| && RowKey(ms[1..][i]) == k;
      assert ms[1..][i] == ms[i + 1];
    }
    if RowKey(ms[0]) !in rows {
      assert RowKey(ms[0]) in after;
    }
    assert forall k | k in after && k !in rows :: k == RowKey(ms[0]) || k !in rest;
    forall id | id in InsertedIds(rest, ms[1..]) ensures id in InsertedIds(rows, ms) {
      var k :| k in after && k !in rest && k.logicalId == id;
      assert k !in rows;
    }
  }

  /** Counting the batch at once, or its first message and then the rest. */
  lemma CountedPeel(rows: map<Key, LinkId>, ms: seq<Message>, l: LinkId)
    requires ms != [] && DistinctIds(ms)
    ensures Counted(ms, InsertedIds(rows, ms), l) ==
            Counted(ms[1..], InsertedIds(AddRow(rows, ms[0]), ms[1..]), l) +
            (if RowKey(ms[0]) !in rows && ms[0].data.linkId == l then 1 else 0)
  {
    InsertedIdsPeel(rows, ms);
    forall i | 0 <= i < |ms[1..]| ensures LogicalId(ms[1..][i]) != LogicalId(ms[0]) {
      assert ms[1..][i] == ms[i + 1];
    }
    ForeignIdsDoNotCount(ms[1..], InsertedIds(AddRow(rows, ms[0]), ms[1..]), LogicalId(ms[0]), l);
  }

  /** A bulk transaction over distinct ids does what processing one message, then the rest, does. */
  lemma BulkPeel(db: Db, ms: seq<Message>)
    requires ms != [] && DistinctIds(ms) && Bulk(db, ms).Some?
    ensures ProcessOne(db, ms[0]).Some?
    ensures Bulk(ProcessOne(db, ms[0]).value, ms[1..]) == Bulk(db, ms)
  {
    var rest := AddRow(db.rows, ms[0]);
    assert InsertAll(db.rows, ms) == InsertAll(rest, ms[1..]);
    if RowKey(ms[0]) !in db.rows {
      assert rest[RowKey(ms[0])] == InsertAll(db.rows, ms)[RowKey(ms[0])];
    }
    var next := ProcessOne(db, ms[0]).value;
    assert next.rows == rest && next.clicks.Keys == db.clicks.Keys;
    assert ForeignKeysHold(next, ms[1..]);
    forall l | l in db.clicks
      ensures Bulk(next, ms[1..]).value.clicks[l] == Bulk(db, ms).value.clicks[l]
    {
      CountedPeel(db.rows, ms, l);
    }
    assert Bulk(next, ms[1..]).value.clicks == Bulk(db, ms).value.clicks;
  }

  /** The bulk path reaches the rows and counters of the sequential path. */
  lemma {:induction false} BulkMatchesFold(db: Db, ms: seq<Message>)
    requires DistinctIds(ms) && Bulk(db, ms).Some?
    ensures Bulk(db, ms).value == Fold(db, ms)
    decreases |ms|
  {
    if ms == [] {
      assert Bulk(db, ms).value.clicks == db.clicks;
    } else {
      BulkPeel(db, ms);
      BulkMatchesFold(ProcessOne(db, ms[0]).value, ms[1..]);
    }
  }

  /** A message goes through exactly if its row is there already or its link exists. */
  lemma OneSucceedsIff(db: Db, m: Message)
    ensures ProcessOne(db, m).Some? <==> RowKey(m) in db.rows || m.data.linkId in db.clicks
    ensures ProcessOne(db, m).Some? ==> RowKey(m) in ProcessOne(db, m).value.rows
  {
  }

  lemma {:induction false} NewRowIs(rows: map<Key, LinkId>, ms: seq<Message>, i: nat)
    requires DistinctIds(ms) && i < |ms| && RowKey(ms[i]) !in rows
    ensures RowKey(ms[i]) in InsertAll(rows, ms) && InsertAll(rows, ms)[RowKey(ms[i])] == ms[i].data.linkId
  {
    EveryRowIsThere(rows, ms, i);
    NewRowsComeFromTheBatch(rows, ms, RowKey(ms[i]));
    var j :| 0 <= j < |ms| && RowKey(ms[j]) == RowKey(ms[i]) && ms[j].data.linkId == InsertAll(rows, ms)[RowKey(ms[i])];
    assert LogicalId(ms[i]) == LogicalId(ms[j]);
  }

  /** A batch with distinct ids goes through exactly if each of its messages would. */
  lemma BulkSucceedsIff(db: Db, ms: seq<Message>)
    requires DistinctIds(ms)
    ensures Bulk(db, ms).Some? <==>
            forall i :: 0 <= i < |ms| ==> RowKey(ms[i]) in db.rows || ms[i].data.linkId in db.clicks
  {
    var after := InsertAll(db.rows, ms);
    if Bulk(db, ms).Some? {
      forall i | 0 <= i < |ms| ensures RowKey(ms[i]) in db.rows || ms[i].data.linkId in db.clicks {
        if RowKey(ms[i]) !in db.rows {
          NewRowIs(db.rows, ms, i);
        }
      }
    } else {
      var k :| k in after && k !in db.rows && after[k] !in db.clicks;
      NewRowsComeFromTheBatch(db.rows, ms, k);
    }
  }

  /** In whatever state the tables are, the transaction adds one click for each row it adds. */
  ghost predicate BulkIsExact(ms: seq<Message>) {
    forall db, start {:trigger Exact(db, start), Bulk(db, ms)} ::
      Exact(db, start) && Bulk(db, ms).Some? ==> Exact(Bulk(db, ms).value, start)
  }

  // ---- counting by membership needs distinct ids ----

  /** Every key of the batch is stored already, except the key of message `i`. */
  function AllRowsBut(ms: seq<Message>, key: Key): map<Key, LinkId> {
    map m | m in ms && RowKey(m) != key :: RowKey(m) := ""
  }

  lemma {:induction false} OnlyOneRowIsNew(rows: map<Key, LinkId>, ms: seq<Message>, i: nat)
    requires i < |ms| && RowKey(ms[i]) !in rows
    requires forall j :: 0 <= j < |ms| ==> RowKey(ms[j]) in rows || RowKey(ms[j]) == RowKey(ms[i])
    requires forall j :: 0 <= j < i ==> RowKey(ms[j]) != RowKey(ms[i])
    ensures InsertAll(rows, ms) == rows[RowKey(ms[i]) := ms[i].data.linkId]
    decreases |ms|
  {
    if i == 0 {
      NothingIsNew(rows[RowKey(ms[0]) := ms[0].data.linkId], ms[1..]);
    } else {
      OnlyOneRowIsNew(rows, ms[1..], i - 1);
    }
  }

  lemma {:induction false} NothingIsNew(rows: map<Key, LinkId>, ms: seq<Message>)
    requires forall j :: 0 <= j < |ms| ==> RowKey(ms[j]) in rows
    ensures InsertAll(rows, ms) == rows
    decreases |ms|
  {
    if ms != [] {
      NothingIsNew(rows, ms[1..]);
    }
  }

  lemma {:induction false} CountedAtLeast(ms: seq<Message>, ids: set<string>, link: LinkId, i: nat)
    requires i < |ms| && LogicalId(ms[i]) in ids && ms[i].data.linkId == link
    ensures Counted(ms, ids, link) >= 1
    ensures forall j :: i < j < |ms| && LogicalId(ms[j]) in ids && ms[j].data.linkId == link ==>
              Counted(ms, ids, link) >= 2
    decreases |ms|
  {
    if i > 0 {
      CountedAtLeast(ms[1..], ids, link, i - 1);
      assert forall j :: i < j < |ms| ==> ms[1..][j - 1] == ms[j];
    } else {
      forall j | 0 < j < |ms| && LogicalId(ms[j]) in ids && ms[j].data.linkId == link
        ensures Counted(ms, ids, link) >= 2
      {
        CountedAtLeast(ms[1..], ids, link, j - 1);
      }
    }
  }

  lemma FirstWithKey(ms: seq<Message>, i: nat) returns (f: nat)
    requires i < |ms|
    ensures f <= i && RowKey(ms[f]) == RowKey(ms[i])
    ensures forall j :: 0 <= j < f ==> RowKey(ms[j]) != RowKey(ms[i])
  {
    f := 0;
    while RowKey(ms[f]) != RowKey(ms[i])
      invariant f <= i
      invariant forall j :: 0 <= j < f ==> RowKey(ms[j]) != RowKey(ms[i])
      decreases i - f
    {
      f := f + 1;
    }
  }

  function LinksOf(ms: seq<Message>): set<LinkId> {
    if ms == [] then {""} else LinksOf(ms[1..]) + {ms[0].data.linkId}
  }

  lemma {:induction false} LinksOfHas(ms: seq<Message>, i: nat)
    requires i < |ms|
    ensures ms[i].data.linkId in LinksOf(ms)
  {
    if i > 0 {
      LinksOfHas(ms[1..], i - 1);
    }
  }

  lemma {:induction false} LinksOfHasEmpty(ms: seq<Message>)
    ensures "" in LinksOf(ms)
  {
    if ms != [] {
      LinksOfHasEmpty(ms[1..]);
    }
  }

  /** A state of the tables in which only the row of message `f` is missing. */
  function AllButOne(ms: seq<Message>, f: nat): Db
    requires f < |ms|
  {
    Db(AllRowsBut(ms, RowKey(ms[f])), map l | l in LinksOf(ms) :: 0)
  }

  lemma AllButOneInserts(ms: seq<Message>, f: nat)
    requires f < |ms| && forall n :: 0 <= n < f ==> RowKey(ms[n]) != RowKey(ms[f])
    ensures var db := AllButOne(ms, f);
            && RowKey(ms[f]) !in db.rows
            && InsertAll(db.rows, ms) == db.rows[RowKey(ms[f]) := ms[f].data.linkId]
            && Bulk(db, ms).Some? && LogicalId(ms[f]) in InsertedIds(db.rows, ms)
  {
    var db := AllButOne(ms, f);
    forall n | 0 <= n < |ms| ensures RowKey(ms[n]) in db.rows || RowKey(ms[n]) == RowKey(ms[f]) {
      assert ms[n] in ms;
    }
    OnlyOneRowIsNew(db.rows, ms, f);
    LinksOfHas(ms, f);
    var after := InsertAll(db.rows, ms);
    assert RowKey(ms[f]) in after && RowKey(ms[f]) !in db.rows;
  }

  /** Two messages with one logical id: some state of the tables makes the counters run ahead. */
  lemma SharedIdOvercounts(ms: seq<Message>, i: nat, j: nat)
    requires i < j < |ms| && LogicalId(ms[i]) == LogicalId(ms[j])
    ensures !BulkIsExact(ms)
  {
    var f := FirstWithKey(ms, i);
    var db := AllButOne(ms, f);
    AllButOneInserts(ms, f);
    var start := map l | l in db.clicks :: -|RowsOf(db.rows, l)|;
    LinksOfHasEmpty(ms);
    assert Exact(db, start);
    LinksOfHas(ms, j);
    var l := ms[j].data.linkId;
    OneMoreRow(db.rows, RowKey(ms[f]), ms[f].data.linkId, l);
    CountedAtLeast(ms, InsertedIds(db.rows, ms), l, if ms[f].data.linkId == l then f else j);
    var next := Bulk(db, ms).value;
    assert next.clicks[l] > start[l] + |RowsOf(next.rows, l)|;
    assert !Exact(next, start);
  }

  /** Counting by membership of the logical id is exact exactly for batches with distinct ids. */
  lemma BulkIsExactIffDistinct(ms: seq<Message>)
    ensures BulkIsExact(ms) <==> DistinctIds(ms)
  {
    if DistinctIds(ms) {
      forall db, start {:trigger Exact(db, start), Bulk(db, ms)} | Exact(db, start) && Bulk(db, ms).Some?
        ensures Exact(Bulk(db, ms).value, start)
      {
        BulkMatchesFold(db, ms);
        FoldKeepsExact(db, ms, start);
      }
    } else {
      var i, j :| 0 <= i < j < |ms| && LogicalId(ms[i]) == LogicalId(ms[j]);
      SharedIdOvercounts(ms, i, j);
    }
  }
}
