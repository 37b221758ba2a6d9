/** Runs of the delivery protocol: transactions that begin, commit and abort in any order, and one
  * device that pulls, page by page, loses answers, is interrupted, and starts over.
  */
module DeliveryRuns {
  import opened Basics
  import opened SyncModel
  import opened SyncInvariant
  import opened SyncRuns
  import opened Delivery
  import opened DeliveryStamps
  import opened DeliverySteps

  // ---- one page request ----

  /** The first `n` matching rows of the type at a position, in key order. */
  function Rows(db: Db, q: Query, at: Position, n: nat): (entries: seq<Entry>)
    requires at.t < DONE
    ensures |entries| <= n
    decreases n
  {
    var keys := Matching(db, q, at);
    if n == 0 || keys == {} then []
    else
      var k := First(keys);
      [EntryFor(db, at, k)] + Rows(db, q, Position(at.t, Some(k)), n - 1)
  }

  /** A request being answered: where it is, how many rows the page still takes, what it has. */
  datatype Request = Request(q: Query, at: Position, remaining: nat, entries: seq<Entry>)

  predicate Answered(r: Request) {
    r.remaining == 0 || r.at.t >= DONE
  }

  /** One statement of a request: the rows of one type, as the database has them then. */
  function QueryType(db: Db, r: Request): (next: Request)
    requires !Answered(r)
  {
    var rows := Rows(db, r.q, r.at, r.remaining);
    if |rows| == r.remaining then Request(r.q, Position(r.at.t, Some(rows[|rows| - 1].key)), 0, r.entries + rows)
    else Request(r.q, Position(r.at.t + 1, None), r.remaining - |rows|, r.entries + rows)
  }

  /** Rows per page: 500 unless asked for, at least 1 and at most 1000. */
  function Limit(asked: Option<int>): (n: nat)
    ensures 1 <= n <= 1000
  {
    var n := if asked.Some? then asked.value else 500;
    if n < 1 then 1 else if n > 1000 then 1000 else n
  }

  // ---- the system ----

  /** A device keeps its copy and the cursor of its last complete pull; within a pull, also the
    * cursor of the next page.
    */
  datatype Device = Device(user: UserId, replica: Replica, cursor: Option<Snapshot>, paging: Option<(Query, Position)>)

  /** Transaction ids below `next` are given out, those in `running` have not ended, and `ceiling`
    * is above every one that has.
    */
  datatype System = System(db: Db, next: Txid, running: set<Txid>, ceiling: Txid, device: Device, request: Option<Request>)

  predicate Ended(s: System, tx: Txid) {
    tx < s.next && tx !in s.running
  }

  function LowestRunning(running: set<Txid>, from: Txid, ceiling: Txid): (low: Txid)
    requires from <= ceiling
    ensures from <= low <= ceiling
    ensures forall tx: Txid :: from <= tx < low ==> tx !in running
    decreases ceiling - from
  {
    if from == ceiling || from in running then from else LowestRunning(running, from + 1, ceiling)
  }

  /** pg_current_snapshot. */
  function CurrentSnapshot(s: System): Snapshot {
    Snapshot(LowestRunning(s.running, 0, s.ceiling), s.ceiling, set tx | tx in s.running && tx < s.ceiling)
  }

  datatype Event =
    | Begin
    | Commit(tx: Txid, steps: seq<Step>)
    | Abort(tx: Txid)
    | Ask(limit: Option<int>)
    | QueryNext
    | Answer
    | Lose
    | Interrupt
    | Resync

  /** What the statements of one transaction leave. */
  ghost function Effect(db: Db, steps: seq<Step>, tx: Txid): Db
    decreases |steps|
  {
    if steps == [] then db else Effect(Next(db, steps[0], tx), steps[1..], tx)
  }

  function End(s: System, tx: Txid, db: Db): System {
    s.(db := db, running := s.running - {tx}, ceiling := if s.ceiling <= tx then tx + 1 else s.ceiling)
  }

  /** The cursor a request comes with: the one for the next page, or that of the last pull. */
  function Known(d: Device): Option<Snapshot> {
    if d.paging.Some? then Some(d.paging.value.0.upto) else d.cursor
  }

  /** A device that is told to start over drops its copy. */
  function StartOver(d: Device): Device {
    Device(d.user, map[], None, None)
  }

  function Asked(s: System, limit: Option<int>): System {
    if Known(s.device).Some? && Known(s.device).value.xmax > s.ceiling then s.(device := StartOver(s.device))
    else
      var (q, at) := if s.device.paging.Some? then s.device.paging.value
                     else (Query(s.device.user, s.device.cursor, CurrentSnapshot(s)), Position(0, None));
      s.(request := Some(Request(q, at, Limit(limit), [])))
  }

  /** A page is applied as it arrives; the cursor of the pull is stored with its last page. */
  function Received(d: Device, r: Request): Device {
    var replica := ApplyAll(d.replica, r.entries);
    if r.remaining == 0 then Device(d.user, replica, d.cursor, Some((r.q, r.at)))
    else Device(d.user, replica, Some(r.q.upto), None)
  }

  predicate Enabled(s: System, e: Event) {
    match e
    case Begin => true
    case Commit(tx, _) => tx in s.running
    case Abort(tx) => tx in s.running
    case Ask(_) => s.request == None
    case QueryNext => s.request.Some? && !Answered(s.request.value)
    case Answer => s.request.Some? && Answered(s.request.value)
    case Lose => s.request.Some?
    case Interrupt => true
    case Resync => true
  }

  ghost function Happen(s: System, e: Event): System {
    if !Enabled(s, e) then s
    else
      match e
      case Begin => s.(next := s.next + 1, running := s.running + {s.next})
      case Commit(tx, steps) => End(s, tx, Effect(s.db, steps, tx))
      case Abort(tx) => End(s, tx, s.db)
      case Ask(limit) => Asked(s, limit)
      case QueryNext => s.(request := Some(QueryType(s.db, s.request.value)))
      case Answer => s.(device := Received(s.device, s.request.value), request := None)
      case Lose => s.(request := None)
      case Interrupt => s.(device := s.device.(paging := None), request := None)
      case Resync => s.(device := StartOver(s.device), request := None)
  }

  ghost function Reached(s: System, events: seq<Event>): System
    decreases |events|
  {
    if events == [] then s else Happen(Reached(s, events[..|events| - 1]), events[|events| - 1])
  }

  lemma ReachedNext(s: System, events: seq<Event>, e: Event)
    ensures Reached(s, events + [e]) == Happen(Reached(s, events), e)
  {
    hide Happen;
    assert (events + [e])[..|events|] == events;
  }

  lemma {:induction false} ReachedAfter(s: System, a: seq<Event>, b: seq<Event>)
    ensures Reached(s, a + b) == Reached(Reached(s, a), b)
    decreases |b|
  {
    hide Happen;
    if b == [] {
      assert a + b == a;
    } else {
      var n := |b| - 1;
      assert a + b == (a + b[..n]) + [b[n]];
      ReachedNext(s, a + b[..n], b[n]);
      ReachedAfter(s, a, b[..n]);
    }
  }

  /** Any database a run of the sync system has reached, and a device that has nothing yet. */
  ghost predicate Initial(s: System) {
    && Consistent(s.db) && s.running == {} && s.ceiling == s.next
    && s.device == Device(s.device.user, map[], None, None) && s.request == None
    && AllEnded(s)
  }

  /** What is deliverable, and every tombstone, was written by a transaction that has ended. */
  ghost predicate AllEnded(s: System) {
    && (forall u, k :: k in s.db.rows && Deliverable(s.db, u, k) ==> Ended(s, s.db.rows[k].txid))
    && (forall k :: k in s.db.tombstones ==> Ended(s, s.db.tombstones[k].txid))
  }

  // ---- the invariant ----

  /** What one may know of a snapshot that was handed out: it sees only what has ended. */
  ghost predicate Issued(s: System, snapshot: Snapshot) {
    snapshot.xmax <= s.ceiling && forall tx: Txid :: Visible(snapshot, tx) ==> Ended(s, tx)
  }

  ghost predicate Older(a: Option<Snapshot>, b: Snapshot) {
    forall tx: Txid :: Delivered(a, tx) ==> Visible(b, tx)
  }

  /** A pull of the device, part of the way: what it is based on, and what the device has. */
  ghost predicate PullOk(s: System, q: Query, at: Position, replica: Replica) {
    && q.user == s.device.user && q.from == s.device.cursor && at.t <= DONE
    && Issued(s, q.upto) && Older(q.from, q.upto)
    && UpToDate(s.db, q, at, replica)
  }

  /** Between pulls the device has everything its cursor sees. */
  ghost predicate CursorOk(s: System) {
    s.device.cursor.Some? ==>
      Issued(s, s.device.cursor.value) && UpToDate(s.db, Settled(s.device), Position(0, None), s.device.replica)
  }

  function Settled(d: Device): Query
    requires d.cursor.Some?
  {
    Query(d.user, d.cursor, d.cursor.value)
  }

  ghost predicate TransactionsOk(s: System) {
    && Consistent(s.db) && s.ceiling <= s.next
    && (forall tx: Txid :: tx in s.running ==> tx < s.next)
    && (forall tx: Txid :: Ended(s, tx) ==> tx < s.ceiling)
    && AllEnded(s)
  }

  ghost predicate PagingOk(s: System) {
    s.device.paging.Some? ==>
      var p := s.device.paging.value; p.1.t < DONE && PullOk(s, p.0, p.1, s.device.replica)
  }

  ghost predicate RequestOk(s: System) {
    s.request.Some? ==>
      var r := s.request.value;
      (r.remaining == 0 ==> r.at.t < DONE) && PullOk(s, r.q, r.at, ApplyAll(s.device.replica, r.entries))
  }

  ghost predicate Invariant(s: System) {
    TransactionsOk(s) && CursorOk(s) && PagingOk(s) && RequestOk(s)
  }

  // ---- each event keeps it ----

  lemma SnapshotSees(s: System, tx: Txid)
    requires TransactionsOk(s)
    ensures Visible(CurrentSnapshot(s), tx) <==> Ended(s, tx)
  {
    hide Consistent, AllEnded;
  }

  lemma {:induction false} EffectStamps(db: Db, steps: seq<Step>, tx: Txid)
    requires Consistent(db)
    ensures Consistent(Effect(db, steps, tx)) && Stamped(db, Effect(db, steps, tx), tx)
    decreases |steps|
  {
    hide Consistent, Next, Stamped;
    if steps == [] {
      StampedSame(db, db, tx);
    } else {
      var d := Next(db, steps[0], tx);
      NextKeeps(db, steps[0], tx);
      NextFollows(db, steps[0], tx);
      EffectStamps(d, steps[1..], tx);
      StampedTransitive(db, d, Effect(d, steps[1..], tx), tx);
    }
  }

  lemma IssuedStays(s: System, t: System, snapshot: Snapshot)
    requires Issued(s, snapshot) && s.ceiling <= t.ceiling
    requires forall tx: Txid :: Ended(s, tx) ==> Ended(t, tx)
    ensures Issued(t, snapshot)
  {
    hide Visible, Ended;
  }

  lemma EndKeepsTransactions(s: System, tx: Txid, db: Db)
    requires TransactionsOk(s) && tx in s.running && Consistent(db) && Stamped(s.db, db, tx)
    ensures TransactionsOk(End(s, tx, db))
    ensures forall x: Txid :: Ended(s, x) ==> Ended(End(s, tx, db), x)
  {
    hide Consistent, Deliverable;
    var t := End(s, tx, db);
    assert forall x: Txid :: Ended(t, x) ==> Ended(s, x) || x == tx;
    forall u, k | k in t.db.rows && Deliverable(t.db, u, k) ensures Ended(t, t.db.rows[k].txid) {
      if t.db.rows[k].txid != tx { assert Ended(s, s.db.rows[k].txid); }
    }
  }

  lemma PullStays(s: System, t: System, tx: Txid, q: Query, at: Position, replica: Replica)
    requires PullOk(s, q, at, replica) && tx in s.running && Stamped(s.db, t.db, tx)
    requires s.ceiling <= t.ceiling && s.device == t.device && forall x: Txid :: Ended(s, x) ==> Ended(t, x)
    ensures PullOk(t, q, at, replica)
  {
    hide UpToDate, Stamped, Visible, Older;
    assert !Ended(s, tx);
    IssuedStays(s, t, q.upto);
    CommitKeeps(s.db, t.db, tx, q, at, replica);
  }

  lemma EndKeeps(s: System, tx: Txid, db: Db)
    requires Invariant(s) && tx in s.running && Consistent(db) && Stamped(s.db, db, tx)
    ensures Invariant(End(s, tx, db))
  {
    hide Consistent, Stamped, UpToDate, PullOk, Issued, AllEnded, Ended, ApplyAll;
    var t := End(s, tx, db);
    EndKeepsTransactions(s, tx, db);
    if s.device.cursor.Some? {
      RunningUnseen(s, tx, s.device.cursor.value);
      IssuedStays(s, t, s.device.cursor.value);
      CommitKeeps(s.db, db, tx, Settled(s.device), Position(0, None), s.device.replica);
    }
    if s.device.paging.Some? {
      PullStays(s, t, tx, s.device.paging.value.0, s.device.paging.value.1, s.device.replica);
    }
    if s.request.Some? {
      PullStays(s, t, tx, s.request.value.q, s.request.value.at, ApplyAll(s.device.replica, s.request.value.entries));
    }
  }

  lemma RunningUnseen(s: System, tx: Txid, snapshot: Snapshot)
    requires Issued(s, snapshot) && tx in s.running
    ensures !Visible(snapshot, tx)
  {
    assert !Ended(s, tx);
  }

  // ---- a page ----

  lemma {:induction false} ApplyAppend(replica: Replica, a: seq<Entry>, b: seq<Entry>)
    ensures ApplyAll(replica, a + b) == ApplyAll(ApplyAll(replica, a), b)
    decreases |a|
  {
    hide Apply;
    if a == [] {
      assert a + b == b;
    } else {
      assert (a + b)[1..] == a[1..] + b;
      ApplyAppend(Apply(replica, a[0]), a[1..], b);
    }
  }

  function Passing(at: Position, rows: seq<Entry>): Position {
    if rows == [] then at else Position(at.t, Some(rows[|rows| - 1].key))
  }

  /** The rows of one query take the device past them, and fewer than asked for are the last. */
  lemma {:induction false} RowsAdvance(db: Db, q: Query, at: Position, n: nat, replica: Replica)
    requires Exclusive(db) && UpToDate(db, q, at, replica) && at.t < DONE
    ensures var rows := Rows(db, q, at, n);
            && UpToDate(db, q, Passing(at, rows), ApplyAll(replica, rows))
            && (|rows| < n ==> Matching(db, q, Passing(at, rows)) == {})
    decreases n
  {
    hide Exclusive, UpToDate, Apply, First, IsFirst, Matching, EntryFor;
    var rows := Rows(db, q, at, n);
    if rows != [] {
      var k := First(Matching(db, q, at));
      FirstAdvances(db, q, at, replica);
      var e, after := EntryFor(db, at, k), Position(at.t, Some(k));
      RowsAdvance(db, q, after, n - 1, Apply(replica, e));
      assert rows[1..] == Rows(db, q, after, n - 1);
      assert Passing(at, rows) == Passing(after, rows[1..]);
    }
  }

  lemma FirstAdvances(db: Db, q: Query, at: Position, replica: Replica)
    requires Exclusive(db) && UpToDate(db, q, at, replica) && at.t < DONE && Matching(db, q, at) != {}
    ensures var k := First(Matching(db, q, at));
            && (at.t != TOMBSTONES ==> k in db.rows)
            && EntryFor(db, at, k).key == k
            && UpToDate(db, q, Position(at.t, Some(k)), Apply(replica, EntryFor(db, at, k)))
  {
    hide Exclusive, UpToDate, Matching, Apply;
    var k := First(Matching(db, q, at));
    if at.t == TOMBSTONES { AdvanceTombstone(db, q, at, k, replica); } else { AdvanceRow(db, q, at, k, replica); }
  }

  lemma QueryAdvances(db: Db, r: Request, replica: Replica)
    requires Exclusive(db) && !Answered(r) && UpToDate(db, r.q, r.at, ApplyAll(replica, r.entries))
    ensures var next := QueryType(db, r);
            next.q == r.q && next.at.t <= DONE && (next.remaining == 0 ==> next.at.t < DONE)
            && UpToDate(db, r.q, next.at, ApplyAll(replica, next.entries))
  {
    hide Exclusive, UpToDate, Rows, Matching, ApplyAll;
    var rows := Rows(db, r.q, r.at, r.remaining);
    RowsAdvance(db, r.q, r.at, r.remaining, ApplyAll(replica, r.entries));
    ApplyAppend(replica, r.entries, rows);
    if |rows| < r.remaining {
      AdvanceType(db, r.q, Passing(r.at, rows), ApplyAll(replica, r.entries + rows));
    }
  }

  // ---- the device ----

  /** The same transactions: whatever was issued before still is. */
  lemma SameTransactions(s: System, t: System)
    requires TransactionsOk(s)
    requires t.db == s.db && t.next == s.next && t.running == s.running && t.ceiling == s.ceiling
    ensures TransactionsOk(t)
    ensures forall snapshot :: Issued(s, snapshot) ==> Issued(t, snapshot)
    ensures t.device.user == s.device.user && t.device.cursor == s.device.cursor ==>
              forall q, at, replica :: PullOk(s, q, at, replica) ==> PullOk(t, q, at, replica)
  {
    hide Consistent, Deliverable, Visible, UpToDate, Older;
    assert forall tx: Txid :: Ended(t, tx) == Ended(s, tx);
  }

  lemma AskKeeps(s: System, limit: Option<int>)
    requires Invariant(s) && s.request == None
    ensures Invariant(Asked(s, limit))
  {
    hide TransactionsOk, PullOk, UpToDate, Issued, CurrentSnapshot;
    var t := Asked(s, limit);
    SameTransactions(s, t);
    KnownNotAhead(s);
    if s.device.paging == None { StartsPull(s); }
    var r := t.request.value;
    assert ApplyAll(t.device.replica, r.entries) == s.device.replica;
  }

  /** The cursor of a device is never ahead of the database that issued it. */
  lemma KnownNotAhead(s: System)
    requires Invariant(s)
    ensures Known(s.device).Some? ==> Known(s.device).value.xmax <= s.ceiling
  {
    hide TransactionsOk, UpToDate, Older, Visible;
  }

  lemma StartsPull(s: System)
    requires Invariant(s)
    ensures PullOk(s, Query(s.device.user, s.device.cursor, CurrentSnapshot(s)), Position(0, None), s.device.replica)
  {
    hide Consistent, AllEnded, Ended, CurrentSnapshot, Visible, UpToDate;
    forall tx: Txid ensures Visible(CurrentSnapshot(s), tx) <==> Ended(s, tx) { SnapshotSees(s, tx); }
    assert CurrentSnapshot(s).xmax == s.ceiling by { SnapshotCeiling(s); }
    StartsUpToDate(s.db, Query(s.device.user, s.device.cursor, CurrentSnapshot(s)), s.device.replica);
  }

  lemma SnapshotCeiling(s: System)
    ensures CurrentSnapshot(s).xmax == s.ceiling
  {
  }

  /** At the start of a pull only what the cursor sees is due, */
  lemma StartsUpToDate(db: Db, q: Query, replica: Replica)
    requires q.from.Some? ==> UpToDate(db, Query(q.user, q.from, q.from.value), Position(0, None), replica)
    ensures UpToDate(db, q, Position(0, None), replica)
  {
    hide Deliverable, Visible;
    if q.from.Some? {
      var settled := Query(q.user, q.from, q.from.value);
      forall k | DueRow(db, q, Position(0, None), k) ensures k in replica && replica[k] == CopyOf(db.rows[k]) {
        assert DueRow(db, settled, Position(0, None), k);
      }
      forall k | DueTombstone(db, q, Position(0, None), k) ensures Lacks(replica, k) {
        assert DueTombstone(db, settled, Position(0, None), k);
      }
    }
  }

  /** which stays true while pages are applied, */
  lemma StaysSettled(db: Db, q: Query, at: Position, replica: Replica)
    requires UpToDate(db, q, at, replica) && q.from.Some? && Older(q.from, q.upto)
    ensures UpToDate(db, Query(q.user, q.from, q.from.value), Position(0, None), replica)
  {
    hide Deliverable, Visible, Passed;
    var settled := Query(q.user, q.from, q.from.value);
    forall k | DueRow(db, settled, Position(0, None), k) ensures k in replica && replica[k] == CopyOf(db.rows[k]) {
      assert Delivered(q.from, db.rows[k].txid);
      assert DueRow(db, q, at, k);
    }
    forall k | DueTombstone(db, settled, Position(0, None), k) ensures Lacks(replica, k) {
      assert Delivered(q.from, db.tombstones[k].txid);
      assert DueTombstone(db, q, at, k);
    }
  }

  /** and at the end everything the new cursor sees has been passed. */
  lemma EndsSettled(db: Db, q: Query, at: Position, replica: Replica)
    requires UpToDate(db, q, at, replica) && at.t == DONE
    ensures UpToDate(db, Query(q.user, Some(q.upto), q.upto), Position(0, None), replica)
  {
    hide Deliverable, Visible;
    var settled := Query(q.user, Some(q.upto), q.upto);
    forall k | DueRow(db, settled, Position(0, None), k) ensures k in replica && replica[k] == CopyOf(db.rows[k]) {
      assert DueRow(db, q, at, k);
    }
    forall k | DueTombstone(db, settled, Position(0, None), k) ensures Lacks(replica, k) {
      assert DueTombstone(db, q, at, k);
    }
  }

  lemma AnswerKeeps(s: System)
    requires Invariant(s) && s.request.Some? && Answered(s.request.value)
    ensures Invariant(s.(device := Received(s.device, s.request.value), request := None))
  {
    hide TransactionsOk, UpToDate, Older, Issued, ApplyAll;
    var r := s.request.value;
    var t := s.(device := Received(s.device, r), request := None);
    SameTransactions(s, t);
    if r.remaining == 0 {
      if r.q.from.Some? { StaysSettled(s.db, r.q, r.at, t.device.replica); }
    } else {
      EndsSettled(s.db, r.q, r.at, t.device.replica);
    }
  }

  lemma PullMoves(s: System, q: Query, at: Position, replica: Replica, next: Position, moved: Replica)
    requires PullOk(s, q, at, replica)
    ensures UpToDate(s.db, q, at, replica)
    ensures UpToDate(s.db, q, next, moved) && next.t <= DONE ==> PullOk(s, q, next, moved)
  {
    hide UpToDate, Issued, Older;
  }

  lemma QueryKeeps(s: System)
    requires Invariant(s) && s.request.Some? && !Answered(s.request.value)
    ensures Invariant(s.(request := Some(QueryType(s.db, s.request.value))))
  {
    hide TransactionsOk, PullOk, UpToDate, Issued, ApplyAll, QueryType, Answered;
    var r, next := s.request.value, QueryType(s.db, s.request.value);
    SameTransactions(s, s.(request := Some(next)));
    TransactionsExclusive(s);
    PullMoves(s, r.q, r.at, ApplyAll(s.device.replica, r.entries), next.at, ApplyAll(s.device.replica, next.entries));
    QueryAdvances(s.db, r, s.device.replica);
  }

  lemma TransactionsExclusive(s: System)
    requires TransactionsOk(s)
    ensures Exclusive(s.db)
  {
    hide Consistent;
    ConsistentExclusive(s.db);
  }

  lemma BeginKeeps(s: System)
    requires Invariant(s)
    ensures Invariant(s.(next := s.next + 1, running := s.running + {s.next}))
  {
    hide Consistent, UpToDate, Older, Visible, ApplyAll, Deliverable;
    var t := s.(next := s.next + 1, running := s.running + {s.next});
    assert forall tx: Txid :: Ended(t, tx) == Ended(s, tx);
  }

  /** Forgetting the page, the pull, or everything. */
  lemma ForgetKeeps(s: System, device: Device)
    requires Invariant(s)
    requires device == s.device || device == s.device.(paging := None) || device == StartOver(s.device)
    ensures Invariant(s.(device := device, request := None))
  {
    hide TransactionsOk, PullOk, UpToDate, Issued;
    SameTransactions(s, s.(device := device, request := None));
  }

  lemma HappenKeeps(s: System, e: Event)
    requires Invariant(s)
    ensures Invariant(Happen(s, e))
  {
    hide Invariant, Effect, QueryType, Received, Asked, StartOver, End, Answered;
    if Enabled(s, e) {
      match e
      case Begin => BeginKeeps(s);
      case Commit(tx, steps) => EffectKeeps(s, tx, steps);
      case Abort(tx) => AbortKeeps(s, tx);
      case Ask(limit) => AskKeeps(s, limit);
      case QueryNext => QueryKeeps(s);
      case Answer => AnswerKeeps(s);
      case Lose => ForgetKeeps(s, s.device);
      case Interrupt => ForgetKeeps(s, s.device.(paging := None));
      case Resync => ForgetKeeps(s, StartOver(s.device));
    }
  }

  lemma EffectKeeps(s: System, tx: Txid, steps: seq<Step>)
    requires Invariant(s) && tx in s.running
    ensures Invariant(End(s, tx, Effect(s.db, steps, tx)))
  {
    hide Consistent, AllEnded, CursorOk, PagingOk, RequestOk, Effect, End, Stamped;
    EffectStamps(s.db, steps, tx);
    EndKeeps(s, tx, Effect(s.db, steps, tx));
  }

  lemma AbortKeeps(s: System, tx: Txid)
    requires Invariant(s) && tx in s.running
    ensures Invariant(End(s, tx, s.db))
  {
    hide Consistent, AllEnded, CursorOk, PagingOk, RequestOk, End, Stamped;
    StampedSame(s.db, s.db, tx);
    EndKeeps(s, tx, s.db);
  }

  lemma InitialOk(s: System)
    requires Initial(s)
    ensures Invariant(s)
  {
    hide Consistent, AllEnded;
  }

  lemma {:induction false} ReachedKeeps(s: System, events: seq<Event>)
    requires Invariant(s)
    ensures Invariant(Reached(s, events))
    decreases |events|
  {
    hide Invariant, Happen;
    if events != [] {
      ReachedKeeps(s, events[..|events| - 1]);
      HappenKeeps(Reached(s, events[..|events| - 1]), events[|events| - 1]);
    }
  }

  lemma ReachedOk(s: System, events: seq<Event>)
    requires Initial(s)
    ensures Invariant(Reached(s, events))
  {
    hide Invariant, Initial, Reached;
    InitialOk(s);
    ReachedKeeps(s, events);
  }

  // ---- what is promised ----

  /** Delivery: whatever transactions, commits, page requests, losses and interruptions there were,
    * a device whose last complete pull ended with cursor `S` holds every client, invoice and line
    * it may have, as it is now, whose last change is visible in `S`, and no id tombstoned by a
    * transaction visible in `S`, nor a line of such an invoice.
    */
  lemma SeenIsDelivered(s: System, events: seq<Event>, k: Key)
    requires Initial(s) && Reached(s, events).device.cursor.Some?
    ensures var t := Reached(s, events); var device := t.device; var seen := device.cursor.value;
            && (k in t.db.rows && Deliverable(t.db, device.user, k) && Visible(seen, t.db.rows[k].txid) ==>
                  k in device.replica && device.replica[k] == CopyOf(t.db.rows[k]))
            && (Tombstoned(t.db, device.user, k) && Visible(seen, t.db.tombstones[k].txid) ==> Lacks(device.replica, k))
  {
    hide Initial, Reached, Deliverable, Visible, Tombstoned, Consistent, AllEnded, PagingOk, RequestOk, Lacks;
    ReachedOk(s, events);
    var t := Reached(s, events);
    DueWhenSettled(t, k);
  }

  lemma DueWhenSettled(s: System, k: Key)
    requires s.device.cursor.Some?
    ensures var seen := s.device.cursor.value;
            && (k in s.db.rows && Deliverable(s.db, s.device.user, k) && Visible(seen, s.db.rows[k].txid) ==>
                  DueRow(s.db, Settled(s.device), Position(0, None), k))
            && (Tombstoned(s.db, s.device.user, k) && Visible(seen, s.db.tombstones[k].txid) ==>
                  DueTombstone(s.db, Settled(s.device), Position(0, None), k))
  {
    hide Deliverable, Visible;
  }

  // ---- no commit falls between two pulls ----

  /** Whether an event is the last page of a pull arriving. */
  predicate Completes(s: System, e: Event) {
    e.Answer? && Enabled(s, e) && s.request.value.remaining != 0
  }

  ghost function Completed(s: System, events: seq<Event>): nat
    decreases |events|
  {
    if events == [] then 0
    else
      var before := events[..|events| - 1];
      Completed(s, before) + if Completes(Reached(s, before), events[|events| - 1]) then 1 else 0
  }

  /** Every pull under way sees the transaction, and the cursor does once one has completed. */
  ghost predicate WillSee(s: System, tx: Txid, completed: nat) {
    && Ended(s, tx)
    && (s.device.paging.Some? ==> Visible(s.device.paging.value.0.upto, tx))
    && (s.request.Some? ==> Visible(s.request.value.q.upto, tx))
    && (completed > 0 ==> Delivered(s.device.cursor, tx))
  }

  lemma WillSeeStays(s: System, e: Event, tx: Txid, completed: nat)
    requires Invariant(s) && WillSee(s, tx, completed) && e != Resync
    ensures WillSee(Happen(s, e), tx, completed + if Completes(s, e) then 1 else 0)
  {
    hide Consistent, AllEnded, PullOk, UpToDate, Visible, QueryType, ApplyAll, Effect, Issued, CurrentSnapshot;
    KnownNotAhead(s);
    SnapshotSees(s, tx);
    if e == QueryNext && Enabled(s, e) { assert QueryType(s.db, s.request.value).q == s.request.value.q by { SameQuery(s.db, s.request.value); } }
  }

  lemma SameQuery(db: Db, r: Request)
    requires !Answered(r)
    ensures QueryType(db, r).q == r.q
  {
  }

  lemma {:induction false} WillSeeAll(s: System, events: seq<Event>, tx: Txid)
    requires Invariant(s) && Ended(s, tx) && s.device.paging == None && s.request == None
    requires forall i :: 0 <= i < |events| ==> events[i] != Resync
    ensures WillSee(Reached(s, events), tx, Completed(s, events))
    decreases |events|
  {
    hide Invariant, Happen, Completes, Ended;
    if events != [] {
      var before, e := events[..|events| - 1], events[|events| - 1];
      WillSeeAll(s, before, tx);
      ReachedKeeps(s, before);
      WillSeeStays(Reached(s, before), e, tx, Completed(s, before));
    }
  }

  /** What was committed when no pull was under way is on the device when the next pull completes,
    * whatever else happens meanwhile, unless it changed again.
    */
  lemma NothingFallsBetween(start: System, earlier: seq<Event>, later: seq<Event>, k: Key)
    requires Initial(start) && forall i :: 0 <= i < |later| ==> later[i] != Resync
    requires var s := Reached(start, earlier); s.device.paging == None && s.request == None && Completed(s, later) > 0
    ensures var s := Reached(start, earlier); var t := Reached(s, later); var device := t.device;
            && (k in t.db.rows && Deliverable(t.db, device.user, k) && Ended(s, t.db.rows[k].txid) ==>
                  k in device.replica && device.replica[k] == CopyOf(t.db.rows[k]))
            && (Tombstoned(t.db, device.user, k) && Ended(s, t.db.tombstones[k].txid) ==> Lacks(device.replica, k))
  {
    hide Initial, Reached, Completed, Deliverable, Visible, Tombstoned, Consistent, AllEnded, PagingOk, RequestOk, Lacks, Ended, UpToDate;
    ReachedOk(start, earlier);
    var s := Reached(start, earlier);
    ReachedKeeps(s, later);
    forall tx: Txid | Ended(s, tx) ensures Delivered(Reached(s, later).device.cursor, tx) {
      WillSeeAll(s, later, tx);
    }
    SettledHas(s, Reached(s, later), k);
  }

  lemma SettledHas(s: System, t: System, k: Key)
    requires Invariant(t)
    requires forall tx: Txid :: Ended(s, tx) ==> Delivered(t.device.cursor, tx)
    ensures k in t.db.rows && Deliverable(t.db, t.device.user, k) && Ended(s, t.db.rows[k].txid) ==>
              k in t.device.replica && t.device.replica[k] == CopyOf(t.db.rows[k])
    ensures Tombstoned(t.db, t.device.user, k) && Ended(s, t.db.tombstones[k].txid) ==> Lacks(t.device.replica, k)
  {
    hide Deliverable, Visible, TransactionsOk, PagingOk, RequestOk, Ended, Lacks;
    if t.device.cursor.Some? { DueWhenSettled(t, k); }
  }
}
