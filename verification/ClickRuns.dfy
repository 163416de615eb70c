/**
 The click stream over whole runs: publish, delivery in batches, redelivery, requeue with backoff,
 dead-lettering, and crashes at any await (apps/worker/src/server/lib/worker-base.ts around
 analytics-click.worker.ts).
 */
module ClickRuns {
  import opened Wrappers
  import opened ClickBatch

  const MAX_RETRIES: nat := 3

  /**
   `live`: entries of the stream not yet acknowledged.  `toAck` and `toRetry`: what a consumer holds
   in memory; a crash loses both.  `published`: every click the producer has sent, by its row key;
   `names`: how the producer told them apart.
   */
  datatype State = State(
    db: Db,
    start: map<LinkId, int>,
    live: map<Id, Payload>,
    toAck: set<Id>,
    toRetry: map<Id, Payload>,
    dead: set<Key>,
    published: map<Key, LinkId>,
    names: set<string>,
    used: set<Id>)

  datatype Event =
    | AddLink(link: LinkId, clicks: int)
    | Publish(id: Id, data: Payload)
    | Process(ids: seq<Id>, enriched: set<Id>, works: bool)
    | Acknowledge(id: Id)
    | Requeue(id: Id, newId: Id)
    | DeadLetter(id: Id)
    | Crash

  function Init(): State {
    State(Db(map[], map[]), map[], map[], {}, map[], {}, map[], {}, {})
  }

  function Messages(live: map<Id, Payload>, ids: seq<Id>): (ms: seq<Message>)
    requires forall i :: 0 <= i < |ids| ==> ids[i] in live
    ensures |ms| == |ids| && forall i :: 0 <= i < |ms| ==> ms[i] == Message(ids[i], live[ids[i]])
  {
    seq(|ids|, i requires 0 <= i < |ids| => Message(ids[i], live[ids[i]]))
  }

  /** The messages whose enrichment succeeded, or those whose did not, in order. */
  function Kept(ms: seq<Message>, enriched: set<Id>, want: bool): (r: seq<Message>)
    ensures forall m :: m in r <==> m in ms && (m.id in enriched) == want
  {
    if ms == [] then [] else
      var rest := Kept(ms[1..], enriched, want);
      if (ms[0].id in enriched) == want then [ms[0]] + rest else rest
  }

  /** Messages held in memory for a retry. */
  function Held(ms: seq<Message>): (r: map<Id, Payload>)
    ensures forall id | id in r :: Message(id, r[id]) in ms
    ensures forall m | m in ms :: m.id in r
  {
    if ms == [] then map[] else
      assert forall m | m in ms :: m == ms[0] || m in ms[1..];
      Held(ms[1..])[ms[0].id := ms[0].data]
  }

  /** The tables after a batch, and whether the enriched messages were processed. */
  function Persist(db: Db, ms: seq<Message>, works: bool): Option<Db> {
    if ms == [] || !works then None
    else if |ms| == 1 then ProcessOne(db, ms[0])
    else Bulk(db, ms)
  }

  function AfterProcess(s: State, ms: seq<Message>, enriched: set<Id>, works: bool): State {
    var kept := Kept(ms, enriched, true);
    match Persist(s.db, kept, works)
    case Some(db) =>
      s.(db := db,
         toAck := s.toAck + (set m | m in kept :: m.id),
         toRetry := s.toRetry + Held(Kept(ms, enriched, false)))
    case None =>
      s.(toRetry := s.toRetry + Held(ms))
  }

  predicate NoRepeats(ids: seq<Id>) {
    forall i, j :: 0 <= i < j < |ids| ==> ids[i] != ids[j]
  }

  /** The producer gives each click an event id of its own; an old one has only the id of its entry. */
  function Named(id: Id, data: Payload): string {
    if data.eventId == "" then id else data.eventId
  }

  /** `distinct`: no batch holds two entries with one logical id. */
  function Apply(distinct: bool, s: State, e: Event): Option<State> {
    match e
    case AddLink(link, clicks) =>
      if link !in s.start
      then Some(s.(start := s.start[link := clicks], db := s.db.(clicks := s.db.clicks[link := clicks])))
      else None
    case Publish(id, data) =>
      var key := RowKey(Message(id, data));
      if id != "" && id !in s.used && data.originalId.None? && data.retryCount == 0 && Named(id, data) !in s.names
      then Some(s.(live := s.live[id := data],
                   used := s.used + {id},
                   published := s.published[key := data.linkId],
                   names := s.names + {Named(id, data)}))
      else None
    case Process(ids, enriched, works) =>
      if ids != [] && NoRepeats(ids) && (forall i :: 0 <= i < |ids| ==> ids[i] in s.live)
         && (distinct ==> DistinctIds(Messages(s.live, ids)))
      then Some(AfterProcess(s, Messages(s.live, ids), enriched, works))
      else None
    case Acknowledge(id) =>
      if id in s.toAck then Some(s.(live := s.live - {id}, toAck := s.toAck - {id})) else None
    case Requeue(id, newId) =>
      if id in s.toRetry && s.toRetry[id].retryCount < MAX_RETRIES && newId != "" && newId !in s.used
      then Some(s.(live := s.live[newId := RetryPayload(Message(id, s.toRetry[id]))],
                   used := s.used + {newId},
                   toRetry := s.toRetry - {id},
                   toAck := s.toAck + {id}))
      else None
    case DeadLetter(id) =>
      if id in s.toRetry && s.toRetry[id].retryCount >= MAX_RETRIES
      then Some(s.(dead := s.dead + {RowKey(Message(id, s.toRetry[id]))},
                   toRetry := s.toRetry - {id},
                   toAck := s.toAck + {id}))
      else None
    case Crash => Some(s.(toAck := {}, toRetry := map[]))
  }

  function Run(distinct: bool, s: State, events: seq<Event>): Option<State>
    decreases |events|
  {
    if events == [] then Some(s) else
      match Apply(distinct, s, events[0])
      case None => None
      case Some(t) => Run(distinct, t, events[1..])
  }

  // ---- what every run keeps ----

  /** An entry stands for a published click, and no retry can change its logical id. */
  ghost predicate Genuine(s: State, m: Message) {
    && m.id in s.used && m.id != "" && m.data.originalId != Some("")
    && RowKey(m) in s.published && s.published[RowKey(m)] == m.data.linkId
  }

  /** The click has its row, or is dead-lettered, or an entry that nobody is about to drop carries it. */
  ghost predicate Covered(s: State, key: Key) {
    || key in s.db.rows
    || key in s.dead
    || exists id :: id in s.live && id !in s.toAck && RowKey(Message(id, s.live[id])) == key
  }

  ghost predicate Inv(s: State) {
    && Exact(s.db, s.start)
    && (forall k | k in s.db.rows :: k in s.published && s.published[k] == s.db.rows[k])
    && (forall id | id in s.live :: Genuine(s, Message(id, s.live[id])))
    && (forall id | id in s.toRetry :: Genuine(s, Message(id, s.toRetry[id])))
    && (forall id | id in s.toRetry && id in s.live :: s.toRetry[id] == s.live[id])
    && s.toAck <= s.used
    && (forall k | k in s.published :: Covered(s, k))
    && NamesKnown(s)
  }

  ghost predicate NamesKnown(s: State) {
    forall k | k in s.published :: k.logicalId in s.names
  }

  lemma {:induction false} KeptIsDistinct(ms: seq<Message>, enriched: set<Id>)
    requires DistinctIds(ms)
    ensures DistinctIds(Kept(ms, enriched, true))
    decreases |ms|
  {
    if ms != [] {
      forall i, j | 0 <= i < j < |ms[1..]| ensures LogicalId(ms[1..][i]) != LogicalId(ms[1..][j]) {
        assert ms[1..][i] == ms[i + 1] && ms[1..][j] == ms[j + 1];
      }
      KeptIsDistinct(ms[1..], enriched);
      var rest := Kept(ms[1..], enriched, true);
      forall i | 0 <= i < |rest| ensures LogicalId(rest[i]) != LogicalId(ms[0]) {
        assert rest[i] in ms[1..];
        var n :| 0 <= n < |ms[1..]| && ms[1..][n] == rest[i];
        assert ms[n + 1] == rest[i];
      }
    }
  }

  /** A committed batch keeps every counter exact, has all its rows, and adds only its own rows. */
  lemma PersistKeepsExact(db: Db, start: map<LinkId, int>, ms: seq<Message>, works: bool)
    requires Exact(db, start) && DistinctIds(ms) && Persist(db, ms, works).Some?
    ensures var next := Persist(db, ms, works).value;
            && Exact(next, start)
            && (forall k | k in db.rows :: k in next.rows && next.rows[k] == db.rows[k])
            && (forall i :: 0 <= i < |ms| ==> RowKey(ms[i]) in next.rows)
            && (forall k | k in next.rows && k !in db.rows ::
                  exists i :: 0 <= i < |ms| && RowKey(ms[i]) == k && ms[i].data.linkId == next.rows[k])
  {
    if |ms| == 1 {
      ProcessOneKeepsExact(db, ms[0], start);
    } else {
      BulkMatchesFold(db, ms);
      FoldKeepsExact(db, ms, start);
      forall i | 0 <= i < |ms| ensures RowKey(ms[i]) in InsertAll(db.rows, ms) {
        EveryRowIsThere(db.rows, ms, i);
      }
      forall k | k in InsertAll(db.rows, ms) && k !in db.rows
        ensures exists i :: 0 <= i < |ms| && RowKey(ms[i]) == k && ms[i].data.linkId == InsertAll(db.rows, ms)[k]
      {
        NewRowsComeFromTheBatch(db.rows, ms, k);
      }
    }
  }

  /** Every message of a batch is a live entry. */
  ghost predicate Delivered(s: State, ms: seq<Message>) {
    forall m | m in ms :: m.id in s.live && s.live[m.id] == m.data
  }

  lemma CommitKeepsRows(s: State, ms: seq<Message>, works: bool)
    requires Inv(s) && Delivered(s, ms) && DistinctIds(ms) && Persist(s.db, ms, works).Some?
    ensures var db := Persist(s.db, ms, works).value;
            && Exact(db, s.start)
            && (forall k | k in s.db.rows :: k in db.rows)
            && (forall m | m in ms :: RowKey(m) in db.rows)
            && (forall k | k in db.rows :: k in s.published && s.published[k] == db.rows[k])
  {
    var db := Persist(s.db, ms, works).value;
    PersistKeepsExact(s.db, s.start, ms, works);
    forall k | k in db.rows ensures k in s.published && s.published[k] == db.rows[k] {
      if k !in s.db.rows {
        var i :| 0 <= i < |ms| && RowKey(ms[i]) == k && ms[i].data.linkId == db.rows[k];
        assert ms[i] in ms;
        assert Genuine(s, Message(ms[i].id, s.live[ms[i].id]));
      }
    }
    forall m | m in ms ensures RowKey(m) in db.rows {
      var i :| 0 <= i < |ms| && ms[i] == m;
    }
  }

  lemma HeldIsGenuine(s: State, ms: seq<Message>, id: Id)
    requires Inv(s) && Delivered(s, ms) && id in s.toRetry + Held(ms)
    ensures Genuine(s, Message(id, (s.toRetry + Held(ms))[id]))
  {
    if id in Held(ms) {
      assert Message(id, Held(ms)[id]) in ms;
      assert Genuine(s, Message(id, s.live[id]));
    }
  }

  lemma HoldingKeepsInv(s: State, ms: seq<Message>)
    requires Inv(s) && Delivered(s, ms)
    ensures Inv(s.(toRetry := s.toRetry + Held(ms)))
  {
    var t := s.(toRetry := s.toRetry + Held(ms));
    forall k | k in t.published ensures Covered(t, k) {
      assert Covered(s, k);
    }
    forall id | id in t.live ensures Genuine(t, Message(id, t.live[id])) {
      assert Genuine(s, Message(id, s.live[id]));
    }
    forall id | id in t.toRetry
      ensures Genuine(t, Message(id, t.toRetry[id])) && (id in t.live ==> t.toRetry[id] == t.live[id])
    {
      HeldIsGenuine(s, ms, id);
    }
  }

  function Committed(s: State, kept: seq<Message>, works: bool): State
    requires Persist(s.db, kept, works).Some?
  {
    s.(db := Persist(s.db, kept, works).value, toAck := s.toAck + (set m | m in kept :: m.id))
  }

  lemma CommitKeepsCovered(s: State, kept: seq<Message>, works: bool, k: Key)
    requires Inv(s) && Delivered(s, kept) && DistinctIds(kept) && Persist(s.db, kept, works).Some?
    requires k in s.published
    ensures Covered(Committed(s, kept, works), k)
  {
    CommitKeepsRows(s, kept, works);
    var t := Committed(s, kept, works);
    assert Covered(s, k);
    if k !in s.db.rows && k !in s.dead {
      var id :| id in s.live && id !in s.toAck && RowKey(Message(id, s.live[id])) == k;
      if id in t.toAck {
        var m :| m in kept && m.id == id;
        assert m == Message(id, s.live[id]);
      }
    }
  }

  lemma CommitKeepsInv(s: State, kept: seq<Message>, works: bool)
    requires Inv(s) && Delivered(s, kept) && DistinctIds(kept) && Persist(s.db, kept, works).Some?
    ensures Inv(Committed(s, kept, works))
  {
    var t := Committed(s, kept, works);
    CommitKeepsRows(s, kept, works);
    forall k | k in t.published ensures Covered(t, k) {
      CommitKeepsCovered(s, kept, works, k);
    }
    forall id | id in t.live ensures Genuine(t, Message(id, t.live[id])) {
      assert Genuine(s, Message(id, s.live[id]));
    }
    forall id | id in t.toRetry ensures Genuine(t, Message(id, t.toRetry[id])) {
      assert Genuine(s, Message(id, s.toRetry[id]));
    }
    forall id | id in t.toAck ensures id in t.used {
      if id !in s.toAck {
        assert Genuine(s, Message(id, s.live[id]));
      }
    }
  }

  lemma RequeueKeepsInv(s: State, id: Id, newId: Id)
    requires Inv(s) && Apply(true, s, Requeue(id, newId)).Some?
    ensures Inv(Apply(true, s, Requeue(id, newId)).value)
  {
    var t := Apply(true, s, Requeue(id, newId)).value;
    var m := Message(id, s.toRetry[id]);
    assert Genuine(s, m);
    var copy := Message(newId, RetryPayload(m));
    assert RowKey(copy) == RowKey(m);
    forall k | k in t.published ensures Covered(t, k) {
      assert Covered(s, k);
      if k == RowKey(m) {
        assert newId in t.live && newId !in t.toAck && RowKey(Message(newId, t.live[newId])) == k;
      } else if k !in s.db.rows && k !in s.dead {
        var i :| i in s.live && i !in s.toAck && RowKey(Message(i, s.live[i])) == k;
        assert Genuine(s, Message(i, s.live[i]));
        assert i != newId && i != id;
        assert t.live[i] == s.live[i];
      }
    }
    forall i | i in t.live ensures Genuine(t, Message(i, t.live[i])) {
      assert i != newId ==> Genuine(s, Message(i, s.live[i]));
    }
    forall i | i in t.toRetry ensures Genuine(t, Message(i, t.toRetry[i])) {
      assert Genuine(s, Message(i, s.toRetry[i]));
    }
  }

  lemma DeadLetterKeepsInv(s: State, id: Id)
    requires Inv(s) && Apply(true, s, DeadLetter(id)).Some?
    ensures Inv(Apply(true, s, DeadLetter(id)).value)
  {
    var t := Apply(true, s, DeadLetter(id)).value;
    var m := Message(id, s.toRetry[id]);
    assert Genuine(s, m);
    forall k | k in t.published ensures Covered(t, k) {
      assert Covered(s, k);
      if k !in t.dead && k !in s.db.rows {
        var i :| i in s.live && i !in s.toAck && RowKey(Message(i, s.live[i])) == k;
        assert i != id;
        assert i in t.live && i !in t.toAck;
      }
    }
    forall i | i in t.live ensures Genuine(t, Message(i, t.live[i])) {
      assert Genuine(s, Message(i, s.live[i]));
    }
    forall i | i in t.toRetry ensures Genuine(t, Message(i, t.toRetry[i])) {
      assert Genuine(s, Message(i, s.toRetry[i]));
    }
  }

  lemma PublishKeepsInv(s: State, id: Id, data: Payload)
    requires Inv(s) && Apply(true, s, Publish(id, data)).Some?
    ensures Inv(Apply(true, s, Publish(id, data)).value)
  {
    var t := Apply(true, s, Publish(id, data)).value;
    var key := RowKey(Message(id, data));
    forall i | i in s.live ensures i != id {
      assert Genuine(s, Message(i, s.live[i]));
    }
    forall i | i in s.toRetry ensures i != id && Genuine(t, Message(i, t.toRetry[i])) {
      assert Genuine(s, Message(i, s.toRetry[i]));
    }
    forall i | i in t.live ensures Genuine(t, Message(i, t.live[i])) {
      assert i != id ==> Genuine(s, Message(i, s.live[i]));
    }
    forall k | k in t.published ensures Covered(t, k) {
      if k == key {
        assert id in t.live && id !in t.toAck && RowKey(Message(id, t.live[id])) == k;
      } else {
        assert Covered(s, k);
        if k !in s.db.rows && k !in s.dead {
          var i :| i in s.live && i !in s.toAck && RowKey(Message(i, s.live[i])) == k;
          assert t.live[i] == s.live[i];
        }
      }
    }
  }

  lemma AddLinkKeepsExact(s: State, link: LinkId, clicks: int)
    requires Inv(s) && link !in s.start
    ensures Exact(s.db.(clicks := s.db.clicks[link := clicks]), s.start[link := clicks])
  {
    assert RowsOf(s.db.rows, link) == {};
  }

  /** New links, acknowledgements and crashes. */
  lemma RestKeepsInv(s: State, e: Event)
    requires Inv(s) && (e.AddLink? || e.Acknowledge? || e.Crash?) && Apply(true, s, e).Some?
    ensures Inv(Apply(true, s, e).value)
  {
    var t := Apply(true, s, e).value;
    if e.AddLink? {
      AddLinkKeepsExact(s, e.link, e.clicks);
    }
    forall k | k in t.published ensures Covered(t, k) {
      assert Covered(s, k);
      if k !in s.db.rows && k !in s.dead {
        var i :| i in s.live && i !in s.toAck && RowKey(Message(i, s.live[i])) == k;
        assert i in t.live && i !in t.toAck && t.live[i] == s.live[i];
      }
    }
    forall i | i in t.live ensures Genuine(t, Message(i, t.live[i])) {
      assert Genuine(s, Message(i, s.live[i]));
    }
    forall i | i in t.toRetry ensures Genuine(t, Message(i, t.toRetry[i])) {
      assert Genuine(s, Message(i, s.toRetry[i]));
    }
  }

  lemma ProcessKeepsInv(s: State, ids: seq<Id>, enriched: set<Id>, works: bool)
    requires Inv(s) && Apply(true, s, Process(ids, enriched, works)).Some?
    ensures Inv(Apply(true, s, Process(ids, enriched, works)).value)
  {
    BatchKeepsInv(s, Messages(s.live, ids), enriched, works);
  }

  lemma BatchKeepsInv(s: State, ms: seq<Message>, enriched: set<Id>, works: bool)
    requires Inv(s) && Delivered(s, ms) && DistinctIds(ms)
    ensures Inv(AfterProcess(s, ms, enriched, works))
  {
    var kept := Kept(ms, enriched, true);
    if Persist(s.db, kept, works).Some? {
      KeptIsDistinct(ms, enriched);
      CommitKeepsInv(s, kept, works);
      HoldingKeepsInv(Committed(s, kept, works), Kept(ms, enriched, false));
    } else {
      HoldingKeepsInv(s, ms);
    }
  }

  lemma EventKeepsInv(s: State, e: Event)
    requires Inv(s) && Apply(true, s, e).Some?
    ensures Inv(Apply(true, s, e).value)
  {
    match e
    case Publish(id, data) => PublishKeepsInv(s, id, data);
    case Process(ids, enriched, works) => ProcessKeepsInv(s, ids, enriched, works);
    case Requeue(id, newId) => RequeueKeepsInv(s, id, newId);
    case DeadLetter(id) => DeadLetterKeepsInv(s, id);
    case _ => RestKeepsInv(s, e);
  }

  lemma {:induction false} RunKeepsInv(s: State, events: seq<Event>)
    requires Inv(s) && Run(true, s, events).Some?
    ensures Inv(Run(true, s, events).value)
    decreases |events|
  {
    if events != [] {
      EventKeepsInv(s, events[0]);
      RunKeepsInv(Apply(true, s, events[0]).value, events[1..]);
    }
  }

  /** How many clicks on the link the producer has published. */
  function Clicks(events: seq<Event>, link: LinkId): nat {
    if events == [] then 0 else
      Clicks(events[1..], link) + if events[0].Publish? && events[0].data.linkId == link then 1 else 0
  }

  lemma PublishAddsOne(s: State, id: Id, data: Payload, link: LinkId)
    requires NamesKnown(s) && Apply(true, s, Publish(id, data)).Some?
    ensures var t := Apply(true, s, Publish(id, data)).value;
            |RowsOf(t.published, link)| == |RowsOf(s.published, link)| + if data.linkId == link then 1 else 0
  {
    var key := RowKey(Message(id, data));
    NameIsLogicalId(id, data);
    OneMoreRow(s.published, key, data.linkId, link);
  }

  lemma NameIsLogicalId(id: Id, data: Payload)
    requires data.originalId.None?
    ensures RowKey(Message(id, data)).logicalId == Named(id, data)
  {
  }

  lemma OtherEventsPublishNothing(s: State, e: Event)
    requires !e.Publish? && Apply(true, s, e).Some?
    ensures Apply(true, s, e).value.published == s.published
  {
  }

  /** Every published click is there under a row key of its own. */
  lemma {:induction false} PublishedAreCounted(s: State, events: seq<Event>, link: LinkId)
    requires Inv(s) && Run(true, s, events).Some?
    ensures |RowsOf(Run(true, s, events).value.published, link)| == |RowsOf(s.published, link)| + Clicks(events, link)
    decreases |events|
  {
    if events != [] {
      var e := events[0];
      var t := Apply(true, s, e).value;
      EventKeepsInv(s, e);
      if e.Publish? {
        PublishAddsOne(s, e.id, e.data, link);
      } else {
        OtherEventsPublishNothing(s, e);
      }
      PublishedAreCounted(t, events[1..], link);
    }
  }

  /**
   After any run, whatever was redelivered, retried or lost in a crash: each link has gained one
   click for each of its rows, rows are published clicks, and every published click has its row, is
   dead-lettered, or is still in the stream.  No two published clicks share a row.
   */
  lemma ClicksCountExactlyOnce(events: seq<Event>)
    requires Run(true, Init(), events).Some?
    ensures var s := Run(true, Init(), events).value;
            && s.db.clicks.Keys == s.start.Keys
            && (forall l | l in s.db.clicks :: s.db.clicks[l] == s.start[l] + |RowsOf(s.db.rows, l)|)
            && (forall k | k in s.db.rows :: k in s.published && s.published[k] == s.db.rows[k])
            && (forall k | k in s.published :: Covered(s, k))
            && (forall l :: |RowsOf(s.published, l)| == Clicks(events, l))
  {
    assert Inv(Init());
    RunKeepsInv(Init(), events);
    forall l ensures |RowsOf(Run(true, Init(), events).value.published, l)| == Clicks(events, l) {
      PublishedAreCounted(Init(), events, l);
    }
  }

  /** Once the stream is empty and nothing is dead, each link has gained exactly its published clicks. */
  lemma DrainedStreamHasCountedEveryClick(events: seq<Event>, link: LinkId)
    requires Run(true, Init(), events).Some?
    requires var s := Run(true, Init(), events).value; s.live == map[] && s.dead == {} && link in s.start
    ensures var s := Run(true, Init(), events).value;
            link in s.db.clicks && s.db.clicks[link] == s.start[link] + Clicks(events, link)
  {
    ClicksCountExactlyOnce(events);
    var s := Run(true, Init(), events).value;
    forall k | k in s.published ensures k in s.db.rows {
      assert Covered(s, k);
    }
    assert RowsOf(s.db.rows, link) == RowsOf(s.published, link);
  }

  // ---- at most three retries ----

  predicate FewRetries(s: State) {
    && (forall id | id in s.live :: s.live[id].retryCount <= 3)
    && (forall id | id in s.toRetry :: s.toRetry[id].retryCount <= 3)
  }

  lemma HoldingKeepsFewRetries(s: State, ms: seq<Message>)
    requires FewRetries(s) && Delivered(s, ms)
    ensures forall id | id in s.toRetry + Held(ms) :: (s.toRetry + Held(ms))[id].retryCount <= 3
  {
    forall id | id in s.toRetry + Held(ms) ensures (s.toRetry + Held(ms))[id].retryCount <= 3 {
      if id in Held(ms) {
        assert Message(id, Held(ms)[id]) in ms;
      }
    }
  }

  lemma EventKeepsFewRetries(distinct: bool, s: State, e: Event)
    requires FewRetries(s) && Apply(distinct, s, e).Some?
    ensures FewRetries(Apply(distinct, s, e).value)
  {
    if e.Process? {
      var ms := Messages(s.live, e.ids);
      HoldingKeepsFewRetries(s, ms);
      HoldingKeepsFewRetries(s, Kept(ms, e.enriched, false));
    }
  }

  /** In any run no entry is ever a fourth retry: a click is tried four times and then dead-lettered. */
  lemma {:induction false} AtMostThreeRetries(distinct: bool, s: State, events: seq<Event>)
    requires FewRetries(s) && Run(distinct, s, events).Some?
    ensures FewRetries(Run(distinct, s, events).value)
    decreases |events|
  {
    if events != [] {
      EventKeepsFewRetries(distinct, s, events[0]);
      AtMostThreeRetries(distinct, Apply(distinct, s, events[0]).value, events[1..]);
    }
  }

  /** And none is dead-lettered before its third retry has failed. */
  lemma DeadLetterIffThirdRetry(s: State, id: Id)
    ensures Apply(true, s, DeadLetter(id)).Some? <==> id in s.toRetry && s.toRetry[id].retryCount >= 3
    ensures id in s.toRetry && s.toRetry[id].retryCount < 3 ==>
              forall newId | newId != "" && newId !in s.used :: Apply(true, s, Requeue(id, newId)).Some?
  {
  }

  // ---- a batch that fails, and its retries ----

  /** Entries with the same row keys for the same links, one by one. */
  predicate SameClicks(ms: seq<Message>, copies: seq<Message>) {
    |ms| == |copies| && forall i :: 0 <= i < |ms| ==>
      RowKey(ms[i]) == RowKey(copies[i]) && ms[i].data.linkId == copies[i].data.linkId
  }

  lemma {:induction false} FoldSame(db: Db, ms: seq<Message>, copies: seq<Message>)
    requires SameClicks(ms, copies)
    ensures Fold(db, ms) == Fold(db, copies)
    decreases |ms|
  {
    if ms != [] {
      assert RowKey(ms[0]) == RowKey(copies[0]);
      assert ProcessOne(db, ms[0]) == ProcessOne(db, copies[0]);
      var next := if ProcessOne(db, ms[0]).Some? then ProcessOne(db, ms[0]).value else db;
      assert SameClicks(ms[1..], copies[1..]) by {
        forall i | 0 <= i < |ms[1..]|
          ensures RowKey(ms[1..][i]) == RowKey(copies[1..][i]) && ms[1..][i].data.linkId == copies[1..][i].data.linkId
        {
          assert RowKey(ms[i + 1]) == RowKey(copies[i + 1]);
        }
      }
      FoldSame(next, ms[1..], copies[1..]);
    }
  }

  /** Ids that no entry has had, all different. */
  predicate Fresh(s: State, newIds: seq<Id>) {
    NoRepeats(newIds) && forall i :: 0 <= i < |newIds| ==> newIds[i] != "" && newIds[i] !in s.used
  }

  /** The messages are held for a retry that they have left. */
  predicate AwaitRetry(s: State, ms: seq<Message>) {
    forall i :: 0 <= i < |ms| ==>
      && ms[i].id in s.toRetry && s.toRetry[ms[i].id] == ms[i].data
      && ms[i].data.retryCount < MAX_RETRIES
  }

  /** Entries that carry the retries of the messages. */
  predicate Requeued(s: State, ms: seq<Message>, newIds: seq<Id>)
    requires |ms| == |newIds|
  {
    forall i :: 0 <= i < |ms| ==> newIds[i] in s.live && s.live[newIds[i]] == RetryPayload(ms[i])
  }

  function Requeues(ms: seq<Message>, newIds: seq<Id>): seq<Event>
    requires |ms| == |newIds|
  {
    if ms == [] then [] else [Requeue(ms[0].id, newIds[0])] + Requeues(ms[1..], newIds[1..])
  }

  /** Each entry delivered alone. */
  function Deliveries(ids: seq<Id>): seq<Event> {
    if ids == [] then [] else [Process([ids[0]], {ids[0]}, true)] + Deliveries(ids[1..])
  }

  lemma RequeueOne(s: State, m: Message, newId: Id, rest: seq<Message>, newIds: seq<Id>)
    requires AwaitRetry(s, [m] + rest) && Fresh(s, [newId] + newIds)
    requires forall i :: 0 <= i < |rest| ==> rest[i].id != m.id
    ensures var t := Apply(true, s, Requeue(m.id, newId));
            && t.Some? && t.value.db == s.db && t.value.live == s.live[newId := RetryPayload(m)]
            && AwaitRetry(t.value, rest) && Fresh(t.value, newIds)
  {
    assert ([m] + rest)[0] == m && ([newId] + newIds)[0] == newId;
    var t := Apply(true, s, Requeue(m.id, newId)).value;
    forall i | 0 <= i < |rest|
      ensures rest[i].id in t.toRetry && t.toRetry[rest[i].id] == rest[i].data && rest[i].data.retryCount < MAX_RETRIES
    {
      assert ([m] + rest)[i + 1] == rest[i];
    }
    forall i | 0 <= i < |newIds| ensures newIds[i] != "" && newIds[i] !in t.used {
      assert ([newId] + newIds)[i + 1] == newIds[i];
    }
    forall i, j | 0 <= i < j < |newIds| ensures newIds[i] != newIds[j] {
      assert ([newId] + newIds)[i + 1] != ([newId] + newIds)[j + 1];
    }
  }

  lemma {:induction false} RequeueEach(s: State, ms: seq<Message>, newIds: seq<Id>)
    requires |ms| == |newIds| && AwaitRetry(s, ms) && Fresh(s, newIds)
    requires forall i, j :: 0 <= i < j < |ms| ==> ms[i].id != ms[j].id
    ensures var run := Run(true, s, Requeues(ms, newIds));
            && run.Some? && run.value.db == s.db && Requeued(run.value, ms, newIds)
            && forall id | id in s.live && id !in newIds :: id in run.value.live && run.value.live[id] == s.live[id]
    decreases |ms|
  {
    if ms != [] {
      assert ms == [ms[0]] + ms[1..] && newIds == [newIds[0]] + newIds[1..];
      RequeueOne(s, ms[0], newIds[0], ms[1..], newIds[1..]);
      var t := Apply(true, s, Requeue(ms[0].id, newIds[0])).value;
      RequeueEach(t, ms[1..], newIds[1..]);
      var u := Run(true, t, Requeues(ms[1..], newIds[1..])).value;
      assert Requeues(ms, newIds)[1..] == Requeues(ms[1..], newIds[1..]);
      forall i | 0 <= i < |ms| ensures newIds[i] in u.live && u.live[newIds[i]] == RetryPayload(ms[i]) {
        if i > 0 {
          assert newIds[1..][i - 1] == newIds[i] && ms[1..][i - 1] == ms[i];
        }
      }
    }
  }

  lemma DeliverOne(s: State, m: Message)
    requires m.id in s.live && s.live[m.id] == m.data
    ensures var t := Apply(true, s, Process([m.id], {m.id}, true));
            t.Some? && t.value.live == s.live && Fold(t.value.db, []) == Fold(s.db, [m])
  {
    assert Messages(s.live, [m.id]) == [m];
    assert [m][1..] == [] && Kept([m], {m.id}, true) == [m];
  }

  lemma {:induction false} DeliverEach(s: State, copies: seq<Message>, ids: seq<Id>)
    requires |copies| == |ids|
    requires forall i :: 0 <= i < |ids| ==> ids[i] in s.live && copies[i] == Message(ids[i], s.live[ids[i]])
    ensures var run := Run(true, s, Deliveries(ids)); run.Some? && run.value.db == Fold(s.db, copies)
    decreases |ids|
  {
    if ids != [] {
      DeliverOne(s, copies[0]);
      var t := Apply(true, s, Process([ids[0]], {ids[0]}, true)).value;
      assert [copies[0]][1..] == [];
      DeliverEach(t, copies[1..], ids[1..]);
      assert Deliveries(ids)[1..] == Deliveries(ids[1..]);
    }
  }

  lemma {:induction false} RunConcat(s: State, before: seq<Event>, after: seq<Event>)
    requires Run(true, s, before).Some?
    ensures Run(true, s, before + after) == Run(true, Run(true, s, before).value, after)
    decreases |before|
  {
    if before == [] {
      assert before + after == after;
    } else {
      assert (before + after)[1..] == before[1..] + after;
      RunConcat(Apply(true, s, before[0]).value, before[1..], after);
    }
  }

  /** What a failed batch leaves in memory. */
  lemma FailedBatch(s: State, ids: seq<Id>, enriched: set<Id>) returns (t: State)
    requires ids != [] && NoRepeats(ids) && (forall i :: 0 <= i < |ids| ==> ids[i] in s.live)
    requires DistinctIds(Messages(s.live, ids))
    requires forall i :: 0 <= i < |ids| ==> s.live[ids[i]].retryCount < MAX_RETRIES
    ensures Apply(true, s, Process(ids, enriched, false)) == Some(t)
    ensures t.db == s.db && t.live == s.live && t.used == s.used && AwaitRetry(t, Messages(s.live, ids))
  {
    var ms := Messages(s.live, ids);
    t := Apply(true, s, Process(ids, enriched, false)).value;
    forall i | 0 <= i < |ms| ensures ms[i].id in t.toRetry && t.toRetry[ms[i].id] == ms[i].data {
      assert ms[i] in ms;
      var held := Message(ms[i].id, Held(ms)[ms[i].id]);
      var j :| 0 <= j < |ms| && ms[j] == held;
      assert ms[j].id == ids[j] && ms[i].id == ids[i];
    }
  }

  function Copies(ms: seq<Message>, newIds: seq<Id>): (r: seq<Message>)
    requires |ms| == |newIds|
    ensures |r| == |ms| && forall i :: 0 <= i < |r| ==> r[i] == Message(newIds[i], RetryPayload(ms[i]))
  {
    seq(|ms|, i requires 0 <= i < |ms| => Message(newIds[i], RetryPayload(ms[i])))
  }

  /** The events can happen, and leave these tables. */
  predicate Leaves(s: State, events: seq<Event>, db: Db) {
    Run(true, s, events).Some? && Run(true, s, events).value.db == db
  }

  lemma RetriesMatchFold(t: State, ms: seq<Message>, newIds: seq<Id>)
    requires |ms| == |newIds| && AwaitRetry(t, ms) && Fresh(t, newIds)
    requires forall i, j :: 0 <= i < j < |ms| ==> ms[i].id != ms[j].id
    requires forall i :: 0 <= i < |ms| ==> ms[i].data.originalId != Some("") && ms[i].id != ""
    ensures Leaves(t, Requeues(ms, newIds) + Deliveries(newIds), Fold(t.db, ms))
  {
    RequeueEach(t, ms, newIds);
    DeliverEach(Run(true, t, Requeues(ms, newIds)).value, Copies(ms, newIds), newIds);
    FoldSame(t.db, ms, Copies(ms, newIds));
    RunConcat(t, Requeues(ms, newIds), Deliveries(newIds));
  }

  function Retrying(ids: seq<Id>, enriched: set<Id>, ms: seq<Message>, newIds: seq<Id>): seq<Event>
    requires |ms| == |newIds|
  {
    [Process(ids, enriched, false)] + Requeues(ms, newIds) + Deliveries(newIds)
  }

  lemma RetryingFolds(s: State, ids: seq<Id>, enriched: set<Id>, newIds: seq<Id>)
    requires ids != [] && |ids| == |newIds| && NoRepeats(ids) && (forall i :: 0 <= i < |ids| ==> ids[i] in s.live)
    requires DistinctIds(Messages(s.live, ids)) && Fresh(s, newIds)
    requires forall i :: 0 <= i < |ids| ==>
               s.live[ids[i]].retryCount < MAX_RETRIES && s.live[ids[i]].originalId != Some("") && ids[i] != ""
    ensures var ms := Messages(s.live, ids);
            Leaves(s, Retrying(ids, enriched, ms, newIds), Fold(s.db, ms))
  {
    var ms := Messages(s.live, ids);
    var failing, rest := Process(ids, enriched, false), Requeues(ms, newIds) + Deliveries(newIds);
    var t := FailedBatch(s, ids, enriched);
    RetriesMatchFold(t, ms, newIds);
    FirstThen(s, failing, rest, Retrying(ids, enriched, ms, newIds), t, Fold(s.db, ms));
  }

  /**
   A batch that fails before its commit, is requeued entry by entry under fresh ids and delivered one by
   one leaves the tables of a single-message pass over the batch, and so those that the bulk path would
   have left.
   */
  lemma FailedBatchIsRetried(s: State, ids: seq<Id>, enriched: set<Id>, newIds: seq<Id>)
    requires ids != [] && |ids| == |newIds| && NoRepeats(ids) && (forall i :: 0 <= i < |ids| ==> ids[i] in s.live)
    requires DistinctIds(Messages(s.live, ids)) && Fresh(s, newIds)
    requires forall i :: 0 <= i < |ids| ==>
               s.live[ids[i]].retryCount < MAX_RETRIES && s.live[ids[i]].originalId != Some("") && ids[i] != ""
    ensures var ms := Messages(s.live, ids);
            && Leaves(s, Retrying(ids, enriched, ms, newIds), Fold(s.db, ms))
            && (Bulk(s.db, ms).Some? ==> Leaves(s, Retrying(ids, enriched, ms, newIds), Bulk(s.db, ms).value))
  {
    RetryingFolds(s, ids, enriched, newIds);
    if Bulk(s.db, Messages(s.live, ids)).Some? {
      BulkMatchesFold(s.db, Messages(s.live, ids));
    }
  }

  lemma FirstThen(s: State, e: Event, rest: seq<Event>, events: seq<Event>, t: State, db: Db)
    requires Apply(true, s, e) == Some(t) && events == [e] + rest && Leaves(t, rest, db)
    ensures Leaves(s, events, db)
  {
    assert events[1..] == rest;
    Chain(true, s, events, t);
  }

  // ---- without distinct ids in a batch ----

  const CLICK := Payload("click", None, "link", 0, 0)

  const CLICK_KEY := Key("click", 0)

  /** One published click, whose first delivery has failed. */
  lemma FailedDelivery() returns (events: seq<Event>, s: State)
    ensures Run(false, Init(), events) == Some(s)
    ensures s.live == map["a" := CLICK] && s.toRetry == map["a" := CLICK] && s.used == {"a"}
    ensures s.db == Db(map[], map["link" := 0]) && s.start == map["link" := 0]
  {
    var s1 := Apply(false, Init(), AddLink("link", 0)).value;
    var s2 := Apply(false, s1, Publish("a", CLICK)).value;
    assert s2.live == map["a" := CLICK];
    var ms := Messages(s2.live, ["a"]);
    assert ms[0] == Message("a", CLICK);
    assert Held(ms) == map["a" := CLICK];
    var failing := Process(["a"], {"a"}, false);
    s := Apply(false, s2, failing).value;
    events := [AddLink("link", 0), Publish("a", CLICK), failing];
    Chain(false, Init(), events, s1);
    Chain(false, s1, events[1..], s2);
    Chain(false, s2, events[2..], s);
    assert Run(false, s, events[3..]) == Some(s);
  }

  /** A delivery fails, the entry is requeued, and the consumer crashes before acknowledging it. */
  lemma CrashBetweenRequeueAndAck() returns (events: seq<Event>, s: State)
    ensures Run(false, Init(), events) == Some(s)
    ensures s.live == map["a" := CLICK, "b" := RetryPayload(Message("a", CLICK))]
    ensures s.db == Db(map[], map["link" := 0]) && s.start == map["link" := 0]
  {
    var before, s3 := FailedDelivery();
    RunOneMore(Init(), before, Requeue("a", "b"));
    var s4 := Apply(false, s3, Requeue("a", "b")).value;
    RunOneMore(Init(), before + [Requeue("a", "b")], Crash);
    events := before + [Requeue("a", "b")] + [Crash];
    s := Apply(false, s4, Crash).value;
  }

  /** One row is inserted, and both messages are counted: their logical id is in the inserted set. */
  lemma BothMessagesAreCounted(a: Message, b: Message)
    requires a == Message("a", CLICK) && b == Message("b", RetryPayload(a))
    ensures Bulk(Db(map[], map["link" := 0]), [a, b]) == Some(Db(map[CLICK_KEY := "link"], map["link" := 2]))
  {
    var ms := [a, b];
    assert ms[1..] == [b] && [b][1..] == [];
    assert RowKey(a) == CLICK_KEY && RowKey(b) == CLICK_KEY;
    assert AddRow(map[], a) == map[CLICK_KEY := "link"];
    var rows := map[CLICK_KEY := "link"];
    assert InsertAll(rows, [b]) == InsertAll(AddRow(rows, b), []) == rows;
    assert InsertAll(map[], ms) == rows;
    assert CLICK_KEY in InsertAll(map[], ms);
    assert InsertedIds(map[], ms) == {"click"};
    assert Counted([b], {"click"}, "link") == 1;
    assert Counted(ms, {"click"}, "link") == 2;
    var db := Db(map[], map["link" := 0]);
    assert Bulk(db, ms).Some? && Bulk(db, ms).value.clicks == map["link" := 2];
  }

  lemma BothAreKept(a: Message, b: Message)
    requires a.id == "a" && b.id == "b"
    ensures Kept([a, b], {"a", "b"}, true) == [a, b]
  {
    assert [a, b][1..] == [b] && [b][1..] == [];
    assert Kept([b], {"a", "b"}, true) == [b];
  }

  /** Then the entry and its copy arrive in one batch: one click, one row, counted twice. */
  lemma CopyInOneBatchIsCountedTwice()
    ensures exists events :: var run := Run(false, Init(), events);
              && run.Some? && run.value.start == map["link" := 0]
              && run.value.db == Db(map[CLICK_KEY := "link"], map["link" := 2])
  {
    var events, s := CrashBetweenRequeueAndAck();
    BothInOneBatch(s);
    RunOneMore(Init(), events, BOTH);
    assert Run(false, Init(), events + [BOTH]) == Apply(false, s, BOTH);
  }

  const BOTH := Process(["a", "b"], {"a", "b"}, true)

  lemma BothInOneBatch(s: State)
    requires s.live == map["a" := CLICK, "b" := RetryPayload(Message("a", CLICK))]
    requires s.db == Db(map[], map["link" := 0])
    ensures Apply(false, s, BOTH).Some?
    ensures var t := Apply(false, s, BOTH).value;
            t.start == s.start && t.db == Db(map[CLICK_KEY := "link"], map["link" := 2])
  {
    var a, b := Message("a", CLICK), Message("b", RetryPayload(Message("a", CLICK)));
    assert Messages(s.live, ["a", "b"]) == [a, b];
    BothAreKept(a, b);
    BothMessagesAreCounted(a, b);
  }

  /** In every run the counters agree with the rows. */
  ghost predicate AlwaysExact(distinct: bool) {
    forall events {:trigger Run(distinct, Init(), events)} | Run(distinct, Init(), events).Some? ::
      Exact(Run(distinct, Init(), events).value.db, Run(distinct, Init(), events).value.start)
  }

  lemma TwoClicksForOneRow()
    ensures !Exact(Db(map[CLICK_KEY := "link"], map["link" := 2]), map["link" := 0])
  {
    var rows := map[CLICK_KEY := "link"];
    assert RowsOf(rows, "link") == {CLICK_KEY};
  }

  /**
   Over all runs, redeliveries, retries and crashes included: each counter is its start plus its link's
   rows, if and only if no batch holds two entries with one logical id.
   */
  lemma AlwaysExactIff(distinct: bool)
    ensures AlwaysExact(distinct) <==> distinct
  {
    if distinct {
      forall events {:trigger Run(distinct, Init(), events)} | Run(distinct, Init(), events).Some?
        ensures Exact(Run(distinct, Init(), events).value.db, Run(distinct, Init(), events).value.start)
      {
        assert Inv(Init());
        RunKeepsInv(Init(), events);
      }
    } else {
      CopyInOneBatchIsCountedTwice();
      TwoClicksForOneRow();
    }
  }

  lemma {:induction false} RunOneMore(s: State, events: seq<Event>, e: Event)
    requires Run(false, s, events).Some?
    ensures Run(false, s, events + [e]) == Apply(false, Run(false, s, events).value, e)
    decreases |events|
  {
    if events == [] {
      assert [e][1..] == [];
    } else {
      assert (events + [e])[1..] == events[1..] + [e];
      RunOneMore(Apply(false, s, events[0]).value, events[1..], e);
    }
  }

  lemma Chain(distinct: bool, s: State, events: seq<Event>, next: State)
    requires events != [] && Apply(distinct, s, events[0]) == Some(next)
    ensures Run(distinct, s, events) == Run(distinct, next, events[1..])
  {
  }
}
