/**
 The migration train of packages/data/src/scripts/migrate.ts, with the journal order that
 scripts/validate-migrations.ts checks.

 A pass runs the migrator on a journal cut down to a range of indexes.  The migrator skips every entry
 whose `when` is not later than the last one applied at its start, and applies the rest in one
 transaction.
 */
module MigrationTrain {
  import opened Wrappers
  import opened IssuerBackfill

  const EXPAND_IDX: int := 7
  const END_IDX: int := 8
  const EXPAND_TAG := "0007_special_fantastic_four"
  const END_TAG := "0008_strange_clea"

  /** `when` is None where the journal holds no finite number. */
  datatype Entry = Entry(idx: int, when: Option<int>, tag: string)

  type Journal = seq<Entry>

  // ---- the order check ----

  datatype Warning = IdxMismatch(index: nat) | NotANumber(index: nat) | NotIncreasing(index: nat)

  /** Indexes count from zero, and timestamps are numbers that strictly increase. */
  predicate InOrder(j: Journal) {
    Indexed(j) && Increasing(j)
  }

  predicate Indexed(j: Journal) {
    forall i :: 0 <= i < |j| ==> j[i].idx == i
  }

  predicate Increasing(j: Journal) {
    && (forall i :: 0 <= i < |j| ==> j[i].when.Some?)
    && (forall i, k :: 0 <= i < k < |j| ==> j[i].when.value < j[k].when.value)
  }

  /** The last timestamp of the journal that is a number. */
  function LastNumber(j: Journal): Option<int> {
    if j == [] then None
    else if j[|j| - 1].when.Some? then j[|j| - 1].when
    else LastNumber(j[..|j| - 1])
  }

  /** What is wrong with the entry at `i`. */
  predicate IsWrong(j: Journal, w: Warning) {
    w.index < |j| &&
    match w
    case IdxMismatch(i) => j[i].idx != i
    case NotANumber(i) => j[i].when.None?
    case NotIncreasing(i) =>
      && j[i].when.Some? && LastNumber(j[..i]).Some? && j[i].when.value <= LastNumber(j[..i]).value
  }

  lemma {:induction false} WrongSnoc(j: Journal, e: Entry, w: Warning)
    ensures IsWrong(j + [e], w) <==> IsWrong(j, w) || (w.index == |j| && IsWrong(j + [e], w))
  {
    if w.index < |j| {
      assert (j + [e])[..w.index] == j[..w.index];
    }
  }

  /** The journal checks of validateJournalCoverage: every fault is named, and nothing else. */
  method CheckOrder(j: Journal) returns (warnings: seq<Warning>)
    ensures forall w :: w in warnings <==> IsWrong(j, w)
    ensures warnings == [] <==> InOrder(j)
  {
    warnings := [];
    var lastWhen: Option<int> := None;
    for i := 0 to |j|
      invariant forall w :: w in warnings <==> IsWrong(j[..i], w)
      invariant lastWhen == LastNumber(j[..i])
    {
      assert j[..i + 1] == j[..i] + [j[i]];
      forall w ensures IsWrong(j[..i + 1], w) <==> IsWrong(j[..i], w) || (w.index == i && IsWrong(j[..i + 1], w)) {
        WrongSnoc(j[..i], j[i], w);
      }
      assert j[..i + 1][..i] == j[..i];
      if j[i].idx != i {
        warnings := warnings + [IdxMismatch(i)];
      }
      if j[i].when.None? {
        warnings := warnings + [NotANumber(i)];
        continue;
      }
      if lastWhen.Some? && j[i].when.value <= lastWhen.value {
        warnings := warnings + [NotIncreasing(i)];
      }
      lastWhen := j[i].when;
    }
    assert j[..|j|] == j;
    if warnings == [] {
      FaultlessIsOrdered(j);
    } else {
      assert warnings[0] in warnings;
      if InOrder(j) {
        OrderedHasNoFault(j);
      }
    }
  }

  lemma {:induction false} OrderedHasNoFault(j: Journal)
    requires InOrder(j)
    ensures forall w :: !IsWrong(j, w)
  {
    forall i: nat | i < |j| ensures !IsWrong(j, NotIncreasing(i)) {
      LastOfOrdered(j[..i]);
    }
  }

  lemma {:induction false} FaultlessIsOrdered(j: Journal)
    requires forall w :: !IsWrong(j, w)
    ensures InOrder(j)
    decreases |j|
  {
    if j != [] {
      var n := |j| - 1;
      assert j == j[..n] + [j[n]];
      forall w ensures !IsWrong(j[..n], w) {
        WrongSnoc(j[..n], j[n], w);
      }
      FaultlessIsOrdered(j[..n]);
      LastOfOrdered(j[..n]);
      assert !IsWrong(j, IdxMismatch(n)) && !IsWrong(j, NotANumber(n)) && !IsWrong(j, NotIncreasing(n));
      assert n > 0 ==> j[..n][n - 1] == j[n - 1];
      OneMoreInOrder(j);
    }
  }

  lemma {:induction false} OneMoreInOrder(j: Journal)
    requires j != []
    requires var n := |j| - 1;
             && InOrder(j[..n]) && j[n].idx == n && j[n].when.Some?
             && (n > 0 ==> j[n - 1].when.value < j[n].when.value)
    ensures InOrder(j)
  {
    var before := j[..|j| - 1];
    assert forall i | 0 <= i < |before| :: before[i] == j[i];
  }

  lemma {:induction false} LastOfOrdered(j: Journal)
    requires InOrder(j)
    ensures LastNumber(j) == if j == [] then None else j[|j| - 1].when
  {
  }

  // ---- the pins ----

  function Find(j: Journal, idx: int): Option<Entry> {
    if j == [] then None else if j[0].idx == idx then Some(j[0]) else Find(j[1..], idx)
  }

  predicate Pinned(j: Journal, idx: int, tag: string) {
    Find(j, idx).Some? && Find(j, idx).value.tag == tag
  }

  /** readJournalAndAssertTrainCoverage. */
  predicate Covers(j: Journal) {
    (exists e | e in j :: e.idx >= END_IDX) && Pinned(j, EXPAND_IDX, EXPAND_TAG) && Pinned(j, END_IDX, END_TAG)
  }

  lemma {:induction false} FindAt(j: Journal, offset: int, idx: int)
    requires forall i :: 0 <= i < |j| ==> j[i].idx == offset + i
    ensures Find(j, idx) == if offset <= idx < offset + |j| then Some(j[idx - offset]) else None
    decreases |j|
  {
    if j != [] && j[0].idx != idx {
      FindAt(j[1..], offset + 1, idx);
    }
  }

  lemma {:induction false} CoversInOrder(j: Journal)
    requires InOrder(j)
    ensures Covers(j) <==> |j| > END_IDX && j[EXPAND_IDX].tag == EXPAND_TAG && j[END_IDX].tag == END_TAG
  {
    FindAt(j, 0, EXPAND_IDX);
    FindAt(j, 0, END_IDX);
    if |j| > END_IDX {
      assert j[END_IDX] in j;
    }
  }

  /** `^[0-9]{4}_[a-z0-9_]+$` */
  predicate GoodTag(tag: string) {
    && |tag| > 5 && (forall i :: 0 <= i < 4 ==> '0' <= tag[i] <= '9') && tag[4] == '_'
    && (forall i :: 5 <= i < |tag| ==> 'a' <= tag[i] <= 'z' || '0' <= tag[i] <= '9' || tag[i] == '_')
  }

  // ---- the migrator ----

  /** The applied entries in order of application, and the account rows. */
  datatype Db = Db(applied: seq<Entry>, rows: seq<Account>)

  function LastWhen(db: Db): Option<int> {
    if db.applied == [] then None else db.applied[|db.applied| - 1].when
  }

  predicate Later(e: Entry, last: Option<int>) {
    e.when.Some? && (last.None? || last.value < e.when.value)
  }

  /** The entries that the migrator applies, given the last timestamp at its start. */
  function ToApply(j: Journal, last: Option<int>): Journal {
    if j == [] then [] else
      var n := |j| - 1;
      if Later(j[n], last) then ToApply(j[..n], last) + [j[n]] else ToApply(j[..n], last)
  }

  /** One transaction: 0008 fails on rows that break its constraints, and then nothing is applied. */
  function Migrate(j: Journal, db: Db): Option<Db> {
    var due := ToApply(j, LastWhen(db));
    if (exists e | e in due :: e.tag == END_TAG) && !NotNullAndUnique(db.rows) then None
    else Some(db.(applied := db.applied + due))
  }

  function Between(j: Journal, above: int, upTo: Option<int>): Journal {
    if j == [] then [] else
      var n := |j| - 1;
      if j[n].idx > above && (upTo.None? || j[n].idx <= upTo.value) then Between(j[..n], above, upTo) + [j[n]]
      else Between(j[..n], above, upTo)
  }

  /** migrateBetween. */
  function Pass(j: Journal, db: Db, above: int, upTo: Option<int>): Option<Db> {
    var phase := Between(j, above, upTo);
    if phase == [] then Some(db)
    else if exists e | e in phase :: !GoodTag(e.tag) then None
    else Migrate(phase, db)
  }

  // ---- the train ----

  /** Where a train stopped: it may fail in a phase, or crash after one; a crash may also cut the backfill short. */
  datatype Outcome = Refused | FailedInPass1 | FailedInBackfill(db: Db) | FailedInPass2(db: Db) | Done(db: Db)

  ghost function Train(enc: string -> string, j: Journal, db: Db): Outcome {
    if !Covers(j) then Refused else
      match Pass(j, db, -1, Some(EXPAND_IDX))
      case None => FailedInPass1
      case Some(expanded) =>
        if !Succeeds(enc, expanded.rows) then FailedInBackfill(expanded) else
          var filled := expanded.(rows := FillAll(enc, expanded.rows));
          match Pass(j, filled, EXPAND_IDX, None)
          case None => FailedInPass2(filled)
          case Some(end) => Done(end)
  }

  ghost predicate GoodTags(j: Journal) {
    forall i :: 0 <= i < |j| ==> GoodTag(j[i].tag)
  }

  /** Tags are not repeated, so entry 8, and only entry 8, is the constraint migration. */
  ghost predicate OneEnd(j: Journal) {
    forall i :: 0 <= i < |j| ==> (j[i].tag == END_TAG <==> i == END_IDX)
  }

  /** A journal that the checks accept. */
  ghost predicate Accepted(j: Journal) {
    InOrder(j) && Covers(j) && GoodTags(j) && OneEnd(j)
  }

  /** A database that holds the first `k` entries; once 0008 is in, its constraints hold. */
  ghost predicate Holds(j: Journal, k: nat, db: Db) {
    k <= |j| && db.applied == j[..k] && (k > END_IDX ==> NotNullAndUnique(db.rows))
  }

  lemma {:induction false} BetweenSnoc(j: Journal, e: Entry, above: int, upTo: Option<int>)
    ensures Between(j + [e], above, upTo) ==
            Between(j, above, upTo) + if e.idx > above && (upTo.None? || e.idx <= upTo.value) then [e] else []
  {
    assert (j + [e])[..|j|] == j;
  }

  lemma {:induction false} SliceSnoc(j: Journal, lo: nat, m: nat)
    requires lo <= m < |j|
    ensures j[lo..m + 1] == j[lo..m] + [j[m]]
  {
  }

  lemma {:induction false} BetweenIsSlice(j: Journal, n: nat, lo: nat, hi: nat, above: int, upTo: Option<int>)
    requires Indexed(j) && n <= |j| && lo == above + 1 && lo <= hi
    requires if upTo.Some? then hi == upTo.value + 1 else hi >= |j|
    ensures Between(j[..n], above, upTo) == if n <= lo then [] else j[lo..if n < hi then n else hi]
    decreases n
  {
    if n > 0 {
      var m := n - 1;
      BetweenIsSlice(j, m, lo, hi, above, upTo);
      SliceSnoc(j, 0, m);
      BetweenSnoc(j[..m], j[m], above, upTo);
      if lo <= m {
        SliceSnoc(j, lo, m);
      }
    }
  }

  /** For a database that holds the first `k` entries, exactly the others are later. */
  ghost predicate LaterFrom(j: Journal, k: nat, last: Option<int>) {
    forall i :: 0 <= i < |j| ==> (Later(j[i], last) <==> k <= i)
  }

  /** What is due in a slice of the journal, for a database that holds the first `k` entries. */
  lemma {:induction false} DueIsSlice(j: Journal, k: nat, last: Option<int>, lo: nat, hi: nat)
    requires LaterFrom(j, k, last) && lo <= hi <= |j|
    ensures ToApply(j[lo..hi], last) == if k <= lo then j[lo..hi] else if k >= hi then [] else j[k..hi]
    decreases hi
  {
    if lo < hi {
      var m := hi - 1;
      DueIsSlice(j, k, last, lo, m);
      SliceSnoc(j, lo, m);
      if lo < k <= m {
        SliceSnoc(j, k, m);
      }
    }
  }

  lemma {:induction false} PassIsMigrate(j: Journal, db: Db, lo: nat, hi: nat, above: int, upTo: Option<int>)
    requires Indexed(j) && GoodTags(j) && lo == above + 1 && lo < hi <= |j|
    requires if upTo.Some? then hi == upTo.value + 1 else hi == |j|
    ensures Pass(j, db, above, upTo) == Migrate(j[lo..hi], db)
  {
    assert j[..|j|] == j;
    BetweenIsSlice(j, |j|, lo, hi, above, upTo);
    var phase := j[lo..hi];
    assert Between(j, above, upTo) == phase;
  }

  /** The constraint migration is due exactly when its index is among those due. */
  lemma {:induction false} EndIsDue(j: Journal, from: nat, hi: nat)
    requires OneEnd(j) && from <= hi <= |j|
    ensures (exists e | e in j[from..hi] :: e.tag == END_TAG) <==> from <= END_IDX < hi
  {
    var due := j[from..hi];
    if from <= END_IDX < hi {
      assert due[END_IDX - from] == j[END_IDX];
      assert j[END_IDX] in due;
    }
    forall e | e in due && e.tag == END_TAG ensures from <= END_IDX < hi {
      var i :| 0 <= i < |due| && due[i] == e;
      assert j[from + i] == e;
    }
  }

  lemma {:induction false} MigrateSlice(j: Journal, k: nat, db: Db, lo: nat, hi: nat)
    requires Increasing(j) && OneEnd(j) && k <= |j| && db.applied == j[..k] && lo <= hi <= |j| && lo <= k
    ensures Migrate(j[lo..hi], db) ==
            if k <= END_IDX < hi && !NotNullAndUnique(db.rows) then None
            else Some(db.(applied := j[..if k < hi then hi else k]))
  {
    var last := LastWhen(db);
    assert last == LastWhen(Db(j[..k], []));
    DueIsSlice(j, k, last, lo, hi);
    MigrateDue(j, k, db, j[lo..hi], hi);
  }

  lemma {:induction false} MigrateDue(j: Journal, k: nat, db: Db, phase: Journal, hi: nat)
    requires OneEnd(j) && k <= |j| && db.applied == j[..k] && hi <= |j|
    requires ToApply(phase, LastWhen(db)) == if k >= hi then [] else j[k..hi]
    ensures Migrate(phase, db) ==
            if k <= END_IDX < hi && !NotNullAndUnique(db.rows) then None
            else Some(db.(applied := j[..if k < hi then hi else k]))
  {
    if k < hi {
      EndIsDue(j, k, hi);
      assert j[..k] + j[k..hi] == j[..hi];
    } else {
      assert j[..k] + [] == j[..k];
    }
  }

  /** A pass brings the applied entries up to the end of its range, or leaves everything as it was. */
  lemma {:induction false} PassExtends(j: Journal, k: nat, db: Db, lo: nat, hi: nat, above: int, upTo: Option<int>)
    requires Accepted(j) && Holds(j, k, db) && lo == above + 1 && lo < hi <= |j| && lo <= k
    requires if upTo.Some? then hi == upTo.value + 1 else hi == |j|
    ensures Pass(j, db, above, upTo) ==
            if k <= END_IDX < hi && !NotNullAndUnique(db.rows) then None
            else Some(db.(applied := j[..if k < hi then hi else k]))
  {
    PassIsMigrate(j, db, lo, hi, above, upTo);
    MigrateSlice(j, k, db, lo, hi);
  }

  function UpTo(k: nat): nat {
    if k <= EXPAND_IDX then EXPAND_IDX + 1 else k
  }

  /**
   The train on a database that holds any prefix of an accepted journal: it ends with the whole
   journal applied in order and every issuer filled, exactly when the account rows are ready for the
   backfill; otherwise it stops in the backfill, with 0007 applied and 0008 not newly applied.
   */
  lemma {:induction false} TrainAppliesEverything(enc: string -> string, j: Journal, k: nat, db: Db)
    requires Injective(enc) && Accepted(j) && Holds(j, k, db)
    ensures Train(enc, j, db) ==
            if Ready(enc, db.rows) then Done(Db(j, FillAll(enc, db.rows)))
            else FailedInBackfill(Db(j[..UpTo(k)], db.rows))
    ensures j[EXPAND_IDX] in j[..UpTo(k)]
    ensures Ready(enc, db.rows) ==> NotNullAndUnique(FillAll(enc, db.rows))
  {
    CoversInOrder(j);
    BackfillSucceedsIff(enc, db.rows);
    PassExtends(j, k, db, 0, EXPAND_IDX + 1, -1, Some(EXPAND_IDX));
    var expanded := Db(j[..UpTo(k)], db.rows);
    assert j[..UpTo(k)][EXPAND_IDX] == j[EXPAND_IDX];
    if Ready(enc, db.rows) {
      var filled := expanded.(rows := FillAll(enc, db.rows));
      VerifiedMeetsConstraints(enc, filled.rows);
      PassExtends(j, UpTo(k), filled, EXPAND_IDX + 1, |j|, EXPAND_IDX, None);
      assert j[..|j|] == j;
    }
  }

  /** Four digits, an underscore, and lower-case letters, digits or underscores. */
  ghost predicate IsTag(tag: string) {
    exists digits, rest :: tag == digits + "_" + rest && |digits| == 4 && Digits(digits) && rest != "" && Words(rest)
  }

  predicate Digits(s: string) {
    forall c | c in s :: '0' <= c <= '9'
  }

  predicate Words(s: string) {
    forall c | c in s :: 'a' <= c <= 'z' || '0' <= c <= '9' || c == '_'
  }

  lemma {:induction false} GoodTagIs(tag: string)
    ensures GoodTag(tag) <==> IsTag(tag)
  {
    if GoodTag(tag) {
      assert tag == tag[..4] + "_" + tag[5..];
      assert Digits(tag[..4]) && Words(tag[5..]);
    }
    if IsTag(tag) {
      var digits, rest :| tag == digits + "_" + rest && |digits| == 4 && Digits(digits) && rest != "" && Words(rest);
      assert forall i | 0 <= i < 4 :: tag[i] == digits[i] && digits[i] in digits;
      assert forall i | 5 <= i < |tag| :: tag[i] == rest[i - 5] && rest[i - 5] in rest;
    }
  }

  /** On rows that are ready, the tags decide: the train ends if and only if all are well formed. */
  lemma {:induction false} TagsDecide(enc: string -> string, j: Journal, k: nat, db: Db)
    requires Injective(enc) && InOrder(j) && Covers(j) && OneEnd(j) && Holds(j, k, db) && Ready(enc, db.rows)
    ensures Train(enc, j, db).Done? <==> forall i :: 0 <= i < |j| ==> IsTag(j[i].tag)
    ensures (exists i :: 0 <= i <= 7 && i < |j| && !IsTag(j[i].tag)) <==> Train(enc, j, db).FailedInPass1?
  {
    CoversInOrder(j);
    forall i | 0 <= i < |j| ensures GoodTag(j[i].tag) <==> IsTag(j[i].tag) {
      GoodTagIs(j[i].tag);
    }
    FirstPassTags(j, k, db);
    TrainNeedsTags(enc, j, k, db);
  }

  lemma {:induction false} TrainNeedsTags(enc: string -> string, j: Journal, k: nat, db: Db)
    requires Injective(enc) && InOrder(j) && Covers(j) && OneEnd(j) && Holds(j, k, db) && Ready(enc, db.rows)
    requires |j| > END_IDX
    ensures Train(enc, j, db).Done? <==> GoodTags(j)
  {
    FirstPassTags(j, k, db);
    if GoodTags(j) {
      TrainAppliesEverything(enc, j, k, db);
    } else if Train(enc, j, db).Done? {
      var filled := DonePasses(enc, j, db);
      SecondPassTags(j, filled);
      assert false;
    }
  }

  lemma {:induction false} FirstPassTags(j: Journal, k: nat, db: Db)
    requires InOrder(j) && OneEnd(j) && Holds(j, k, db) && |j| > END_IDX
    ensures Pass(j, db, -1, Some(EXPAND_IDX)).None? <==> exists i :: 0 <= i <= EXPAND_IDX && !GoodTag(j[i].tag)
  {
    var phase := j[0..EXPAND_IDX + 1];
    assert j[..|j|] == j;
    BetweenIsSlice(j, |j|, 0, EXPAND_IDX + 1, -1, Some(EXPAND_IDX));
    assert Between(j, -1, Some(EXPAND_IDX)) == phase;
    MigrateSlice(j, k, db, 0, EXPAND_IDX + 1);
    SliceTags(j, 0, EXPAND_IDX + 1);
  }

  lemma {:induction false} SliceTags(j: Journal, lo: nat, hi: nat)
    requires lo <= hi <= |j|
    ensures (exists e | e in j[lo..hi] :: !GoodTag(e.tag)) <==> exists i :: lo <= i < hi && !GoodTag(j[i].tag)
  {
    if i :| lo <= i < hi && !GoodTag(j[i].tag) {
      assert j[lo..hi][i - lo] == j[i];
    }
  }

  lemma {:induction false} SecondPassTags(j: Journal, db: Db)
    requires Indexed(j) && |j| > END_IDX && Pass(j, db, EXPAND_IDX, None).Some?
    ensures forall i :: EXPAND_IDX < i < |j| ==> GoodTag(j[i].tag)
  {
    assert j[..|j|] == j;
    BetweenIsSlice(j, |j|, EXPAND_IDX + 1, |j|, EXPAND_IDX, None);
    assert Between(j, EXPAND_IDX, None) == j[EXPAND_IDX + 1..|j|];
    SliceTags(j, EXPAND_IDX + 1, |j|);
  }

  lemma {:induction false} DonePasses(enc: string -> string, j: Journal, db: Db) returns (filled: Db)
    requires Train(enc, j, db).Done?
    ensures Pass(j, db, -1, Some(EXPAND_IDX)).Some? && Pass(j, filled, EXPAND_IDX, None).Some?
  {
    var expanded := Pass(j, db, -1, Some(EXPAND_IDX)).value;
    filled := expanded.(rows := FillAll(enc, expanded.rows));
  }

  /** The same as one plain migration of the whole journal, had the issuers been filled beforehand. */
  lemma {:induction false} TrainIsOneMigration(enc: string -> string, j: Journal, k: nat, db: Db)
    requires Injective(enc) && Accepted(j) && Holds(j, k, db) && Ready(enc, db.rows)
    ensures Train(enc, j, db).Done?
    ensures Migrate(j, db.(rows := FillAll(enc, db.rows))) == Some(Train(enc, j, db).db)
  {
    TrainAppliesEverything(enc, j, k, db);
    CoversInOrder(j);
    var filled := db.(rows := FillAll(enc, db.rows));
    assert j[0..|j|] == j && j[..|j|] == j;
    MigrateSlice(j, k, filled, 0, |j|);
  }

  // ---- a train that is cut short ----

  datatype Stage = NotStarted | Backfilling | Contracting | Finished

  datatype Job = Job(stage: Stage, db: Db)

  /** What a train does one after the other; each is one transaction or one UPDATE, of one row or of several. */
  datatype Move = ExpandPass | Update(which: set<nat>) | Verify | ContractPass

  function FillSome(enc: string -> string, rows: seq<Account>, which: set<nat>): (r: seq<Account>)
    ensures |r| == |rows| && forall i :: 0 <= i < |r| ==> r[i] == if i in which then Fill(enc, rows[i]) else rows[i]
  {
    seq(|rows|, i requires 0 <= i < |rows| => if i in which then Fill(enc, rows[i]) else rows[i])
  }

  /** Once 0008 is applied, an UPDATE against its constraints fails. */
  predicate Permits(applied: seq<Entry>, rows: seq<Account>) {
    (exists e | e in applied :: e.tag == END_TAG) ==> NotNullAndUnique(rows)
  }

  ghost function Apply(enc: string -> string, j: Journal, job: Job, m: Move): Option<Job> {
    var db := job.db;
    match m
    case ExpandPass =>
      if job.stage.NotStarted? && Covers(j) && Pass(j, db, -1, Some(EXPAND_IDX)).Some?
      then Some(Job(Backfilling, Pass(j, db, -1, Some(EXPAND_IDX)).value)) else None
    case Update(which) =>
      if job.stage.Backfilling? && (forall i | i in which :: i < |db.rows| && Resolve(enc, db.rows[i].providerId).Some?)
         && Permits(db.applied, FillSome(enc, db.rows, which))
      then Some(job.(db := db.(rows := FillSome(enc, db.rows, which)))) else None
    case Verify =>
      if job.stage.Backfilling? && Verified(enc, db.rows) then Some(job.(stage := Contracting)) else None
    case ContractPass =>
      if job.stage.Contracting? && Pass(j, db, EXPAND_IDX, None).Some?
      then Some(Job(Finished, Pass(j, db, EXPAND_IDX, None).value)) else None
  }

  ghost function Run(enc: string -> string, j: Journal, job: Job, moves: seq<Move>): Option<Job>
    decreases |moves|
  {
    if moves == [] then Some(job) else
      match Apply(enc, j, job, moves[0])
      case None => None
      case Some(next) => Run(enc, j, next, moves[1..])
  }

  /** How many entries are applied at a stage. */
  function Reached(j: Journal, k: nat, stage: Stage): nat {
    match stage
    case NotStarted => k
    case Backfilling => UpTo(k)
    case Contracting => UpTo(k)
    case Finished => |j|
  }

  /** What a train that started on `db` has done to it. */
  ghost predicate Under(enc: string -> string, j: Journal, k: nat, db: Db, job: Job) {
    && Holds(j, Reached(j, k, job.stage), job.db) && PartlyFilled(enc, db.rows, job.db.rows)
    && (job.stage.Contracting? || job.stage.Finished? ==> Verified(enc, job.db.rows))
  }

  lemma {:induction false} UpdateKeepsUnder(
      enc: string -> string, j: Journal, k: nat, db: Db, job: Job, which: set<nat>)
    requires Accepted(j) && Under(enc, j, k, db, job) && Apply(enc, j, job, Update(which)).Some?
    ensures Under(enc, j, k, db, Apply(enc, j, job, Update(which)).value)
  {
    var rows := FillSome(enc, job.db.rows, which);
    forall i | 0 <= i < |rows| ensures rows[i] == db.rows[i] || rows[i] == Fill(enc, db.rows[i]) {
      ResolveIsNotEmpty(enc, db.rows[i].providerId);
    }
    if UpTo(k) > END_IDX {
      assert j[..UpTo(k)][END_IDX] == j[END_IDX];
      assert j[END_IDX] in job.db.applied && j[END_IDX].tag == END_TAG;
    }
  }

  lemma {:induction false} MoveKeepsUnder(enc: string -> string, j: Journal, k: nat, db: Db, job: Job, m: Move)
    requires Accepted(j) && k <= |j| && Under(enc, j, k, db, job) && Apply(enc, j, job, m).Some?
    ensures Under(enc, j, k, db, Apply(enc, j, job, m).value)
  {
    CoversInOrder(j);
    match m
    case ExpandPass => PassExtends(j, k, job.db, 0, EXPAND_IDX + 1, -1, Some(EXPAND_IDX));
    case Update(which) => UpdateKeepsUnder(enc, j, k, db, job, which);
    case Verify =>
    case ContractPass =>
      VerifiedMeetsConstraints(enc, job.db.rows);
      PassExtends(j, UpTo(k), job.db, EXPAND_IDX + 1, |j|, EXPAND_IDX, None);
  }

  lemma {:induction false} RunKeepsUnder(enc: string -> string, j: Journal, k: nat, db: Db, job: Job, moves: seq<Move>)
    requires Accepted(j) && k <= |j| && Under(enc, j, k, db, job) && Run(enc, j, job, moves).Some?
    ensures Under(enc, j, k, db, Run(enc, j, job, moves).value)
    decreases |moves|
  {
    if moves != [] {
      MoveKeepsUnder(enc, j, k, db, job, moves[0]);
      RunKeepsUnder(enc, j, k, db, Apply(enc, j, job, moves[0]).value, moves[1..]);
    }
  }

  /** A train cut short after any of its moves and started again ends in the same state as one that is not. */
  lemma {:induction false} RerunEndsTheSame(enc: string -> string, j: Journal, k: nat, db: Db, moves: seq<Move>)
    requires Injective(enc) && Accepted(j) && Holds(j, k, db) && Run(enc, j, Job(NotStarted, db), moves).Some?
    ensures var left := Run(enc, j, Job(NotStarted, db), moves).value.db;
            && (Ready(enc, left.rows) <==> Ready(enc, db.rows))
            && (Ready(enc, db.rows) ==> Train(enc, j, left) == Train(enc, j, db))
  {
    RunKeepsUnder(enc, j, k, db, Job(NotStarted, db), moves);
    var job := Run(enc, j, Job(NotStarted, db), moves).value;
    PartlyReady(enc, db.rows, job.db.rows);
    FillingAgain(enc, db.rows, job.db.rows);
    TrainAppliesEverything(enc, j, k, db);
    TrainAppliesEverything(enc, j, Reached(j, k, job.stage), job.db);
  }

  lemma {:induction false} PartlyReady(enc: string -> string, rows: seq<Account>, now: seq<Account>)
    requires Injective(enc) && PartlyFilled(enc, rows, now)
    ensures Ready(enc, now) <==> Ready(enc, rows)
  {
    forall i | 0 <= i < |rows|
      ensures now[i].providerId == rows[i].providerId && now[i].accountId == rows[i].accountId
      ensures (!NeedsIssuer(now[i]) ==> now[i].issuer == Resolve(enc, now[i].providerId)) <==>
              (!NeedsIssuer(rows[i]) ==> rows[i].issuer == Resolve(enc, rows[i].providerId))
    {
      ResolveIsNotEmpty(enc, rows[i].providerId);
    }
  }

  /** The moves end where the train ends, and a train that can end has moves that get there. */
  lemma {:induction false} MovesEndLikeTheTrain(enc: string -> string, j: Journal, k: nat, db: Db)
    requires Injective(enc) && Accepted(j) && Holds(j, k, db)
    ensures forall moves |
              && Run(enc, j, Job(NotStarted, db), moves).Some?
              && Run(enc, j, Job(NotStarted, db), moves).value.stage.Finished? ::
              Train(enc, j, db) == Done(Run(enc, j, Job(NotStarted, db), moves).value.db)
    ensures Train(enc, j, db).Done? ==>
              exists moves :: Run(enc, j, Job(NotStarted, db), moves) == Some(Job(Finished, Train(enc, j, db).db))
  {
    var start := Job(NotStarted, db);
    forall moves | Run(enc, j, start, moves).Some? && Run(enc, j, start, moves).value.stage.Finished?
      ensures Train(enc, j, db) == Done(Run(enc, j, start, moves).value.db)
    {
      FinishedIsDone(enc, j, k, db, moves);
    }
    if Train(enc, j, db).Done? {
      var moves := MovesOfTrain(enc, j, k, db);
    }
  }

  lemma {:induction false} FinishedIsDone(enc: string -> string, j: Journal, k: nat, db: Db, moves: seq<Move>)
    requires Injective(enc) && Accepted(j) && Holds(j, k, db)
    requires Run(enc, j, Job(NotStarted, db), moves).Some?
    requires Run(enc, j, Job(NotStarted, db), moves).value.stage.Finished?
    ensures Train(enc, j, db) == Done(Run(enc, j, Job(NotStarted, db), moves).value.db)
  {
    RunKeepsUnder(enc, j, k, db, Job(NotStarted, db), moves);
    var end := Run(enc, j, Job(NotStarted, db), moves).value.db;
    VerifiedIsFilled(enc, db.rows, end.rows);
    TrainAppliesEverything(enc, j, k, db);
    BackfillSucceedsIff(enc, db.rows);
    assert j[..|j|] == j;
  }

  lemma {:induction false} VerifiedIsFilled(enc: string -> string, rows: seq<Account>, now: seq<Account>)
    requires PartlyFilled(enc, rows, now) && Verified(enc, now)
    ensures now == FillAll(enc, rows) && Succeeds(enc, rows)
  {
    forall i | 0 <= i < |rows| ensures now[i] == Fill(enc, rows[i]) && Resolve(enc, rows[i].providerId).Some? {
      ResolveIsNotEmpty(enc, rows[i].providerId);
      assert now[i].providerId == rows[i].providerId;
    }
  }

  function Indices(n: nat): (r: set<nat>)
    ensures forall i: nat :: i in r <==> i < n
  {
    if n == 0 then {} else Indices(n - 1) + {n - 1}
  }

  lemma {:induction false} UpdateAll(enc: string -> string, j: Journal, db: Db)
    requires Injective(enc) && Ready(enc, db.rows)
    ensures var filled := db.(rows := FillAll(enc, db.rows));
            && Apply(enc, j, Job(Backfilling, db), Update(Indices(|db.rows|))) == Some(Job(Backfilling, filled))
            && Apply(enc, j, Job(Backfilling, filled), Verify) == Some(Job(Contracting, filled))
  {
    BackfillSucceedsIff(enc, db.rows);
    VerifiedMeetsConstraints(enc, FillAll(enc, db.rows));
    assert FillSome(enc, db.rows, Indices(|db.rows|)) == FillAll(enc, db.rows);
  }

  /** The two passes of a train that ends. */
  lemma {:induction false} PassesOfTrain(enc: string -> string, j: Journal, db: Db) returns (expanded: Db)
    requires Train(enc, j, db).Done?
    ensures Apply(enc, j, Job(NotStarted, db), ExpandPass) == Some(Job(Backfilling, expanded))
    ensures expanded.rows == db.rows
    ensures Apply(enc, j, Job(Contracting, expanded.(rows := FillAll(enc, db.rows))), ContractPass) ==
            Some(Job(Finished, Train(enc, j, db).db))
  {
    expanded := Pass(j, db, -1, Some(EXPAND_IDX)).value;
  }

  lemma {:induction false} MovesOfTrain(enc: string -> string, j: Journal, k: nat, db: Db) returns (moves: seq<Move>)
    requires Injective(enc) && Accepted(j) && Holds(j, k, db) && Train(enc, j, db).Done?
    ensures Run(enc, j, Job(NotStarted, db), moves) == Some(Job(Finished, Train(enc, j, db).db))
  {
    assert Ready(enc, db.rows) by {
      TrainAppliesEverything(enc, j, k, db);
    }
    var expanded := PassesOfTrain(enc, j, db);
    var filled := expanded.(rows := FillAll(enc, db.rows));
    UpdateAll(enc, j, expanded);
    moves := RunFour(enc, j, Job(NotStarted, db), ExpandPass, Job(Backfilling, expanded),
                     Update(Indices(|expanded.rows|)), Job(Backfilling, filled),
                     Verify, Job(Contracting, filled), ContractPass);
  }

  lemma {:induction false} RunFour(
      enc: string -> string, j: Journal, a: Job, m: Move, b: Job, n: Move, c: Job, o: Move, d: Job, p: Move)
    returns (moves: seq<Move>)
    requires Apply(enc, j, a, m) == Some(b) && Apply(enc, j, b, n) == Some(c) && Apply(enc, j, c, o) == Some(d)
    requires Apply(enc, j, d, p).Some?
    ensures Run(enc, j, a, moves) == Apply(enc, j, d, p)
  {
    moves := [m, n, o, p];
    assert moves[1..] == [n, o, p] && [n, o, p][1..] == [o, p] && [o, p][1..] == [p] && [p][1..] == [];
    assert Run(enc, j, d, [p]) == Apply(enc, j, d, p);
    assert Run(enc, j, c, [o, p]) == Run(enc, j, d, [p]);
    assert Run(enc, j, b, [n, o, p]) == Run(enc, j, c, [o, p]);
  }

  // ---- the script ----

  class Deployment {
    var applied: seq<Entry>
    const accounts: AccountTable

    constructor (accounts: AccountTable)
      ensures this.accounts == accounts && applied == []
    {
      this.accounts, applied := accounts, [];
    }

    function Contents(): Db
      reads this, accounts
    {
      Db(applied, accounts.rows)
    }

    /** Cuts the journal down, checks the tags, and runs the migrator; false where it throws. */
    method MigrateBetween(j: Journal, above: int, upTo: Option<int>) returns (ok: bool)
      modifies this`applied
      ensures ok == Pass(j, old(Contents()), above, upTo).Some?
      ensures Contents() == if ok then Pass(j, old(Contents()), above, upTo).value else old(Contents())
    {
      var phase: Journal := [];
      for i := 0 to |j|
        invariant phase == Between(j[..i], above, upTo)
      {
        assert j[..i + 1][..i] == j[..i];
        if j[i].idx > above && (upTo.None? || j[i].idx <= upTo.value) {
          phase := phase + [j[i]];
        }
      }
      assert j[..|j|] == j;
      if phase == [] {
        return true;
      }
      for i := 0 to |phase|
        invariant forall k :: 0 <= k < i ==> GoodTag(phase[k].tag)
      {
        if !GoodTag(phase[i].tag) {
          assert phase[i] in phase;
          return false;
        }
      }
      var migrated := Migrate(phase, Contents());
      if migrated.None? {
        return false;
      }
      applied := migrated.value.applied;
      return true;
    }

    /** The part of main between the connection and the seed. */
    method Deploy(enc: string -> string, j: Journal) returns (ok: bool)
      modifies this`applied, accounts
      ensures ok == Train(enc, j, old(Contents())).Done?
      ensures match Train(enc, j, old(Contents()))
              case Refused => Contents() == old(Contents())
              case FailedInPass1 => Contents() == old(Contents())
              case FailedInBackfill(db) => applied == db.applied && PartlyFilled(enc, old(accounts.rows), accounts.rows)
              case FailedInPass2(db) => Contents() == db
              case Done(db) => Contents() == db
    {
      if !(exists e | e in j :: e.idx >= END_IDX)
         || !Pinned(j, EXPAND_IDX, EXPAND_TAG) || !Pinned(j, END_IDX, END_TAG) {
        return false;
      }
      var first := MigrateBetween(j, -1, Some(EXPAND_IDX));
      if !first {
        return false;
      }
      var filled := accounts.BackfillAccountIssuer(enc);
      if !filled {
        return false;
      }
      ok := MigrateBetween(j, EXPAND_IDX, None);
    }
  }
}
