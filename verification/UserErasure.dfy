/**
 deleteUserData of apps/worker/src/workers/deletion-stream.worker.ts: eight queries, each its own
 transaction, over tables with foreign keys.

 An attempt may stop after any query and be tried again, and users may add rows in between.
 */
module UserErasure {
  import opened Wrappers

  type Id = string

  datatype AuthTable = ApiKey | Session | Account | TwoFactor

  /** A row of one of the four tables whose rows belong to a user. */
  datatype Row = Row(table: AuthTable, id: Id)

  /** `totals` are the daily statistics of a link; only the cascade removes them. */
  datatype Tables = Tables(
    users: set<Id>,
    links: map<Id, Option<Id>>,
    events: map<Id, Id>,
    totals: map<Id, Id>,
    auth: map<Row, Id>)

  ghost predicate ForeignKeys(t: Tables) {
    && (forall l | l in t.links && t.links[l].Some? :: t.links[l].value in t.users)
    && (forall e | e in t.events :: t.events[e] in t.links)
    && (forall e | e in t.totals :: t.totals[e] in t.links)
    && (forall r | r in t.auth :: t.auth[r] in t.users)
  }

  // ---- the queries ----

  /** `delete from rows where target in gone`. */
  function Without<K>(rows: map<K, Id>, gone: set<Id>): map<K, Id> {
    map r | r in rows && rows[r] !in gone :: rows[r]
  }

  function WithoutIn(auth: map<Row, Id>, table: AuthTable, u: Id): map<Row, Id> {
    map r | r in auth && !(r.table == table && auth[r] == u) :: auth[r]
  }

  function LinksOf(t: Tables, u: Id): set<Id> {
    set l | l in t.links && t.links[l] == Some(u)
  }

  /** Deleting links takes their events and totals along. */
  function DeleteLinks(t: Tables, gone: set<Id>): Tables {
    t.(links := t.links - gone, events := Without(t.events, gone), totals := Without(t.totals, gone))
  }

  /** Deleting a user takes the auth rows along and leaves the user's links without an owner. */
  function DeleteUser(t: Tables, u: Id): Tables {
    t.(users := t.users - {u},
       links := map l | l in t.links :: if t.links[l] == Some(u) then None else t.links[l],
       auth := Without(t.auth, {u}))
  }

  const STEPS: nat := 8

  /** The link ids an attempt holds after a query; only the first one selects. */
  function Selected(t: Tables, u: Id, ids: set<Id>, step: nat): set<Id> {
    if step == 0 then LinksOf(t, u) else ids
  }

  function Query(t: Tables, u: Id, ids: set<Id>, step: nat): Tables {
    match step
    case 1 => t.(events := Without(t.events, ids))
    case 2 => DeleteLinks(t, LinksOf(t, u))
    case 3 => t.(auth := WithoutIn(t.auth, ApiKey, u))
    case 4 => t.(auth := WithoutIn(t.auth, Session, u))
    case 5 => t.(auth := WithoutIn(t.auth, Account, u))
    case 6 => t.(auth := WithoutIn(t.auth, TwoFactor, u))
    case 7 => DeleteUser(t, u)
    case _ => t
  }

  // ---- what a full attempt does ----

  /** Nothing of the user is left, and everything else is as it was. */
  function Erase(t: Tables, u: Id): Tables {
    var gone := LinksOf(t, u);
    Tables(t.users - {u}, t.links - gone, Without(t.events, gone), Without(t.totals, gone), Without(t.auth, {u}))
  }

  /** The tables after the first `n` queries of an attempt that nothing interleaves with. */
  function Attempt(t: Tables, u: Id, n: nat): Tables
    requires n <= STEPS
  {
    if n == 0 then t else Query(Attempt(t, u, n - 1), u, LinksOf(t, u), n - 1)
  }

  function AfterStops(t: Tables, u: Id, stops: seq<nat>): Tables
    requires forall i :: 0 <= i < |stops| ==> stops[i] <= STEPS
    decreases |stops|
  {
    if stops == [] then t else AfterStops(Attempt(t, u, stops[0]), u, stops[1..])
  }

  /** A query removes only what an erasure would remove, so it does not change what is left after one. */
  lemma QueryKeepsErasure(t: Tables, u: Id, ids: set<Id>, step: nat)
    requires ForeignKeys(t) && (step == 1 ==> ids == LinksOf(t, u))
    requires step == 7 ==> LinksOf(t, u) == {}
    ensures Erase(Query(t, u, ids, step), u) == Erase(t, u)
    ensures LinksOf(Query(t, u, ids, step), u) == if step == 2 then {} else LinksOf(t, u)
  {
    match step
    case 2 => LinksQueryKeepsErasure(t, u);
    case 7 => LastQueryKeepsErasure(t, u);
    case _ =>
      var after := Query(t, u, ids, step);
      assert LinksOf(after, u) == LinksOf(t, u);
      assert Without(after.events, LinksOf(t, u)) == Without(t.events, LinksOf(t, u));
      assert Without(after.auth, {u}) == Without(t.auth, {u});
  }

  lemma LinksQueryKeepsErasure(t: Tables, u: Id)
    ensures Erase(DeleteLinks(t, LinksOf(t, u)), u) == Erase(t, u)
    ensures LinksOf(DeleteLinks(t, LinksOf(t, u)), u) == {}
  {
    var after := DeleteLinks(t, LinksOf(t, u));
    assert LinksOf(after, u) == {};
    assert Without(after.events, {}) == after.events && Without(after.totals, {}) == after.totals;
    assert after.links - {} == after.links;
  }

  lemma LastQueryKeepsErasure(t: Tables, u: Id)
    requires LinksOf(t, u) == {}
    ensures Erase(DeleteUser(t, u), u) == Erase(t, u) && LinksOf(DeleteUser(t, u), u) == {}
  {
    assert DeleteUser(t, u).links == t.links by {
      forall l | l in t.links ensures t.links[l] != Some(u) {
        assert l !in LinksOf(t, u);
      }
    }
    assert Without(Without(t.auth, {u}), {u}) == Without(t.auth, {u});
  }

  lemma {:induction false} AttemptKeepsErasure(t: Tables, u: Id, n: nat)
    requires ForeignKeys(t) && n <= STEPS
    ensures ForeignKeys(Attempt(t, u, n)) && Erase(Attempt(t, u, n), u) == Erase(t, u)
    ensures LinksOf(Attempt(t, u, n), u) == if n <= 2 then LinksOf(t, u) else {}
    decreases n
  {
    if n > 0 {
      AttemptKeepsErasure(t, u, n - 1);
      QueryKeepsErasure(Attempt(t, u, n - 1), u, LinksOf(t, u), n - 1);
    }
  }

  /** A full attempt is one erasure. */
  lemma FullAttemptErases(t: Tables, u: Id)
    requires ForeignKeys(t)
    ensures Attempt(t, u, STEPS) == Erase(t, u) && ForeignKeys(Erase(t, u))
  {
    AttemptKeepsErasure(t, u, STEPS);
    var end := Attempt(t, u, STEPS);
    assert end == DeleteUser(Attempt(t, u, 7), u);
    assert LinksOf(end, u) == {};
    assert Without(end.events, {}) == end.events && Without(end.totals, {}) == end.totals;
    assert end.links - {} == end.links;
    assert Without(end.auth, {u}) == end.auth;
    assert Erase(end, u) == end;
  }

  lemma {:induction false} StopsKeepErasure(t: Tables, u: Id, stops: seq<nat>)
    requires ForeignKeys(t) && forall i :: 0 <= i < |stops| ==> stops[i] <= STEPS
    ensures ForeignKeys(AfterStops(t, u, stops)) && Erase(AfterStops(t, u, stops), u) == Erase(t, u)
    decreases |stops|
  {
    if stops != [] {
      AttemptKeepsErasure(t, u, stops[0]);
      StopsKeepErasure(Attempt(t, u, stops[0]), u, stops[1..]);
    }
  }

  /** Attempts stopped anywhere, any number of times, then a full one: the same as one erasure. */
  lemma RetriesErase(t: Tables, u: Id, stops: seq<nat>)
    requires ForeignKeys(t) && forall i :: 0 <= i < |stops| ==> stops[i] <= STEPS
    ensures Attempt(AfterStops(t, u, stops), u, STEPS) == Erase(t, u)
  {
    StopsKeepErasure(t, u, stops);
    FullAttemptErases(AfterStops(t, u, stops), u);
  }

  /** An erasure leaves no row of the user and keeps every row of everybody else. */
  lemma ErasureIsExact(t: Tables, u: Id)
    requires ForeignKeys(t)
    ensures var r := Erase(t, u);
            && r.users == t.users - {u}
            && (forall l :: l in r.links <==> l in t.links && t.links[l] != Some(u))
            && (forall l | l in r.links :: r.links[l] == t.links[l])
            && (forall e :: e in r.events <==> e in t.events && t.links[t.events[e]] != Some(u))
            && (forall e | e in r.events :: r.events[e] == t.events[e])
            && (forall e :: e in r.totals <==> e in t.totals && t.links[t.totals[e]] != Some(u))
            && (forall k :: k in r.auth <==> k in t.auth && t.auth[k] != u)
            && (forall k | k in r.auth :: r.auth[k] == t.auth[k])
  {
  }

  // ---- the worker's method ----

  class Database {
    var users: set<Id>
    var links: map<Id, Option<Id>>
    var events: map<Id, Id>
    var totals: map<Id, Id>
    var auth: map<Row, Id>

    function Contents(): Tables
      reads this
    {
      Tables(users, links, events, totals, auth)
    }

    method SelectLinks(u: Id) returns (linkIds: set<Id>)
      ensures linkIds == LinksOf(Contents(), u)
    {
      linkIds := set l | l in links && links[l] == Some(u);
    }

    method DeleteEvents(linkIds: set<Id>)
      modifies this`events
      ensures Contents() == Query(old(Contents()), "", linkIds, 1)
    {
      events := Without(events, linkIds);
    }

    method DeleteLinksOwnedBy(u: Id)
      modifies this`links, this`events, this`totals
      ensures Contents() == DeleteLinks(old(Contents()), old(LinksOf(Contents(), u)))
    {
      var gone := set l | l in links && links[l] == Some(u);
      assert gone == LinksOf(Contents(), u);
      links, events, totals := links - gone, Without(events, gone), Without(totals, gone);
    }

    method DeleteAuthRows(table: AuthTable, u: Id)
      modifies this`auth
      ensures Contents() == old(Contents()).(auth := WithoutIn(old(auth), table, u))
    {
      auth := WithoutIn(auth, table, u);
    }

    method DeleteUserRow(u: Id)
      modifies this`users, this`links, this`auth
      ensures Contents() == DeleteUser(old(Contents()), u)
    {
      users := users - {u};
      links := map l | l in links :: if links[l] == Some(u) then None else links[l];
      auth := Without(auth, {u});
    }

    method DeleteUserData(u: Id)
      requires ForeignKeys(Contents())
      modifies this
      ensures Contents() == Erase(old(Contents()), u)
      ensures ForeignKeys(Contents())
    {
      ghost var t := Contents();
      var linkIds := SelectLinks(u);
      assert Without(events, {}) == events;
      if linkIds != {} {
        DeleteEvents(linkIds);
      }
      assert Contents() == Query(t, u, linkIds, 1);
      DeleteLinksOwnedBy(u);
      DeleteAuthRows(ApiKey, u);
      DeleteAuthRows(Session, u);
      DeleteAuthRows(Account, u);
      DeleteAuthRows(TwoFactor, u);
      DeleteUserRow(u);
      AttemptUnrolled(t, u, Query(t, u, linkIds, 1), Query(Query(t, u, linkIds, 1), u, {}, 2));
      FullAttemptErases(t, u);
    }
  }

  lemma AttemptUnrolled(t: Tables, u: Id, two: Tables, three: Tables)
    requires two == Query(t, u, LinksOf(t, u), 1) && three == Query(two, u, {}, 2)
    ensures Attempt(t, u, STEPS) ==
            DeleteUser(three.(auth := WithoutIn(WithoutIn(WithoutIn(WithoutIn(three.auth, ApiKey, u),
                                                                     Session, u), Account, u), TwoFactor, u)), u)
  {
    var ids := LinksOf(t, u);
    assert Attempt(t, u, 2) == two by { assert Attempt(t, u, 1) == t; }
    assert Attempt(t, u, 3) == three;
    assert Attempt(t, u, 5) == Query(Query(three, u, ids, 3), u, ids, 4);
    assert Attempt(t, u, 7) == Query(Query(Attempt(t, u, 5), u, ids, 5), u, ids, 6);
  }
}
