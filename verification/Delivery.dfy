/** Pull by snapshot cursor: which changes a device that keeps pulling has received.
  *
  * Transactions get their id when they start and take effect when they commit, in any order. A
  * pull reads up to a snapshot, page by page, while other transactions go on committing.
  */
module Delivery {
  import opened Basics
  import opened SyncModel

  // ---- snapshots ----

  /** pg_snapshot: ids below xmin have ended, ids from xmax on have not, xip were running. */
  datatype Snapshot = Snapshot(xmin: Txid, xmax: Txid, xip: set<Txid>)

  /** pg_visible_in_snapshot. */
  predicate Visible(s: Snapshot, tx: Txid) {
    tx < s.xmin || (tx < s.xmax && tx !in s.xip)
  }

  predicate Delivered(from: Option<Snapshot>, tx: Txid) {
    from.Some? && Visible(from.value, tx)
  }

  // ---- what a pull returns ----

  predicate InLiveInvoice(db: Db, row: Row, user: UserId) {
    var invoice := Col(row.cols, InvoiceId);
    invoice.Ref? && OwnedInvoiceRow(db, invoice.id, user) && IsLive(db.rows[Key(Invoice, invoice.id)])
  }

  /** The records of the user a pull may return: live, an item in a live invoice. */
  predicate Deliverable(db: Db, user: UserId, k: Key) {
    && k in db.rows && IsLive(db.rows[k])
    && if k.t == Item then InLiveInvoice(db, db.rows[k], user) else Col(db.rows[k].cols, Owner) == User(user)
  }

  predicate Tombstoned(db: Db, user: UserId, k: Key) {
    k in db.tombstones && db.tombstones[k].user == user
  }

  /** Order in which a pull walks the types: clients, invoices, items, then tombstones. */
  const TOMBSTONES := 3
  const DONE := 4

  function Rank(t: RecordType): nat {
    match t case Client => 0 case Invoice => 1 case Item => 2
  }

  /** Order of the keys within a type; tombstones go by type, then id. */
  predicate Before(a: Key, b: Key) {
    Rank(a.t) < Rank(b.t) || (a.t == b.t && a.id < b.id)
  }

  /** The position of a pull: the type it is at, and the last key returned of it. */
  datatype Position = Position(t: nat, after: Option<Key>)

  predicate After(k: Key, after: Option<Key>) {
    after.Some? ==> Before(after.value, k)
  }

  predicate InWindow(from: Option<Snapshot>, upto: Snapshot, tx: Txid) {
    !Delivered(from, tx) && Visible(upto, tx)
  }

  /** What a pull reads: whose records, changed after `from` and up to `upto`. */
  datatype Query = Query(user: UserId, from: Option<Snapshot>, upto: Snapshot)

  predicate MatchesRow(db: Db, q: Query, at: Position, k: Key) {
    Deliverable(db, q.user, k) && Rank(k.t) == at.t && InWindow(q.from, q.upto, db.rows[k].txid) && After(k, at.after)
  }

  predicate MatchesTombstone(db: Db, q: Query, at: Position, k: Key) {
    at.t == TOMBSTONES && Tombstoned(db, q.user, k) && InWindow(q.from, q.upto, db.tombstones[k].txid) && After(k, at.after)
  }

  /** The keys of the rows that match at a position. */
  function Matching(db: Db, q: Query, at: Position): set<Key> {
    if at.t == TOMBSTONES then set k | k in db.tombstones && MatchesTombstone(db, q, at, k)
    else set k | k in db.rows && MatchesRow(db, q, at, k)
  }

  predicate IsFirst(k: Key, keys: set<Key>) {
    k in keys && forall j :: j in keys && j != k ==> Before(k, j)
  }

  lemma {:induction false} FirstExists(keys: set<Key>)
    requires keys != {}
    ensures exists k :: IsFirst(k, keys)
  {
    var x :| x in keys;
    var rest := keys - {x};
    if rest == {} {
      assert keys == {x};
      assert IsFirst(x, keys);
    } else {
      FirstExists(rest);
      var m :| IsFirst(m, rest);
      assert keys == rest + {x};
      assert IsFirst(if Before(x, m) then x else m, keys);
    }
  }

  function First(keys: set<Key>): (k: Key)
    requires keys != {}
    ensures IsFirst(k, keys)
  {
    FirstExists(keys);
    var k :| IsFirst(k, keys);
    k
  }

  // ---- the device's copy ----

  datatype Copy = Copy(cols: Cols, revision: nat)

  type Replica = map<Key, Copy>

  datatype Entry = Upsert(key: Key, copy: Copy) | Drop(key: Key)

  function CopyOf(row: Row): Copy {
    Copy(row.cols, row.revision)
  }

  predicate IsCopyIn(k: Key, copy: Copy, invoice: Key) {
    invoice.t == Invoice && k.t == Item && Col(copy.cols, InvoiceId) == Ref(invoice.id)
  }

  /** A device stores a record, or removes a tombstoned one, and the lines of an invoice with it. */
  function Apply(replica: Replica, e: Entry): Replica {
    match e
    case Upsert(k, copy) => replica[k := copy]
    case Drop(k) => map j | j in replica && j != k && !IsCopyIn(j, replica[j], k) :: replica[j]
  }

  function ApplyAll(replica: Replica, entries: seq<Entry>): Replica
    decreases |entries|
  {
    if entries == [] then replica else ApplyAll(Apply(replica, entries[0]), entries[1..])
  }

  function EntryFor(db: Db, at: Position, k: Key): Entry
    requires at.t != TOMBSTONES ==> k in db.rows
  {
    if at.t == TOMBSTONES then Drop(k) else Upsert(k, CopyOf(db.rows[k]))
  }

  // ---- what the device has, part of the way through a pull ----

  predicate Passed(at: Position, phase: nat, k: Key) {
    phase < at.t || (phase == at.t && at.after.Some? && !Before(at.after.value, k))
  }

  /** A deliverable record whose last change the pull reads, and was delivered before or passed. */
  predicate DueRow(db: Db, q: Query, at: Position, k: Key) {
    && k in db.rows && Deliverable(db, q.user, k) && Visible(q.upto, db.rows[k].txid)
    && (Delivered(q.from, db.rows[k].txid) || Passed(at, Rank(k.t), k))
  }

  predicate DueTombstone(db: Db, q: Query, at: Position, k: Key) {
    && Tombstoned(db, q.user, k) && Visible(q.upto, db.tombstones[k].txid)
    && (Delivered(q.from, db.tombstones[k].txid) || Passed(at, TOMBSTONES, k))
  }

  /** Every such record is on the device as it is on the server. */
  ghost predicate HasRows(db: Db, q: Query, at: Position, replica: Replica) {
    forall k :: DueRow(db, q, at, k) ==> k in replica && replica[k] == CopyOf(db.rows[k])
  }

  /** No record so tombstoned is on the device, nor a line of such an invoice. */
  ghost predicate LacksDeleted(db: Db, q: Query, at: Position, replica: Replica) {
    forall k :: DueTombstone(db, q, at, k) ==> Lacks(replica, k)
  }

  ghost predicate Lacks(replica: Replica, k: Key) {
    k !in replica && forall j :: j in replica ==> !IsCopyIn(j, replica[j], k)
  }

  ghost predicate UpToDate(db: Db, q: Query, at: Position, replica: Replica) {
    HasRows(db, q, at, replica) && LacksDeleted(db, q, at, replica)
  }

  // ---- the two facts about the tables this needs ----

  /** A deliverable record is not tombstoned, nor its invoice. */
  ghost predicate Exclusive(db: Db) {
    forall u, k :: k in db.rows && Deliverable(db, u, k) ==>
      k !in db.tombstones && (k.t == Item ==> Key(Invoice, Col(db.rows[k].cols, InvoiceId).id) !in db.tombstones)
  }

  /** What a transaction leaves without its id on it was there, and deliverable, before. */
  ghost predicate Stamped(a: Db, b: Db, tx: Txid) {
    && (forall u, k :: k in b.rows && Deliverable(b, u, k) && b.rows[k].txid != tx ==>
          k in a.rows && Deliverable(a, u, k) && a.rows[k] == b.rows[k])
    && (forall k :: k in b.tombstones && b.tombstones[k].txid != tx ==> k in a.tombstones && a.tombstones[k] == b.tombstones[k])
  }

  // ---- a commit keeps the device as far along as it was ----

  lemma CommitKeeps(a: Db, b: Db, tx: Txid, q: Query, at: Position, replica: Replica)
    requires UpToDate(a, q, at, replica) && Stamped(a, b, tx) && !Visible(q.upto, tx)
    ensures UpToDate(b, q, at, replica)
  {
    hide Deliverable, Visible, Passed, Delivered;
    forall k | DueRow(b, q, at, k) ensures k in replica && replica[k] == CopyOf(b.rows[k]) {
      assert DueRow(a, q, at, k);
    }
    forall k | DueTombstone(b, q, at, k) ensures Lacks(replica, k) {
      assert DueTombstone(a, q, at, k);
    }
  }

  // ---- one row more ----

  lemma MatchingHas(db: Db, q: Query, at: Position, k: Key)
    ensures at.t != TOMBSTONES ==> (k in Matching(db, q, at) <==> k in db.rows && MatchesRow(db, q, at, k))
    ensures at.t == TOMBSTONES ==> (k in Matching(db, q, at) <==> MatchesTombstone(db, q, at, k))
  {
    hide Deliverable, InWindow;
  }

  /** A row due after one more row is passed was due before, or is that row. */
  lemma NewlyDue(db: Db, q: Query, at: Position, first: Key, k: Key)
    requires IsFirst(first, Matching(db, q, at)) && at.t < TOMBSTONES && DueRow(db, q, Position(at.t, Some(first)), k)
    ensures k == first || DueRow(db, q, at, k)
  {
    hide Deliverable, Visible;
    MatchingHas(db, q, at, k);
    MatchingHas(db, q, at, first);
  }

  lemma AdvanceRow(db: Db, q: Query, at: Position, first: Key, replica: Replica)
    requires Exclusive(db) && UpToDate(db, q, at, replica) && IsFirst(first, Matching(db, q, at)) && at.t < TOMBSTONES
    ensures first in db.rows && UpToDate(db, q, Position(at.t, Some(first)), Apply(replica, EntryFor(db, at, first)))
  {
    hide Deliverable, IsFirst, InWindow;
    MatchingHas(db, q, at, first);
    FirstIsIn(first, Matching(db, q, at));
    var next, r := Position(at.t, Some(first)), Apply(replica, EntryFor(db, at, first));
    forall k | DueRow(db, q, next, k) ensures k in r && r[k] == CopyOf(db.rows[k]) {
      NewlyDue(db, q, at, first, k);
    }
    forall k | DueTombstone(db, q, next, k) ensures Lacks(r, k) {
      assert DueTombstone(db, q, at, k);
      assert Lacks(replica, k);
      ItemInvoiceLive(db, q.user, first);
    }
  }

  lemma FirstIsIn(k: Key, keys: set<Key>)
    requires IsFirst(k, keys)
    ensures k in keys
  {
  }

  lemma ItemInvoiceLive(db: Db, user: UserId, k: Key)
    requires Exclusive(db) && k in db.rows && Deliverable(db, user, k)
    ensures k !in db.tombstones
    ensures forall i :: i in db.tombstones ==> !IsCopyIn(k, CopyOf(db.rows[k]), i)
  {
    hide InLiveInvoice;
  }

  lemma AdvanceTombstone(db: Db, q: Query, at: Position, first: Key, replica: Replica)
    requires Exclusive(db) && UpToDate(db, q, at, replica) && IsFirst(first, Matching(db, q, at)) && at.t == TOMBSTONES
    ensures UpToDate(db, q, Position(at.t, Some(first)), Apply(replica, EntryFor(db, at, first)))
  {
    hide Deliverable, Visible;
    MatchingHas(db, q, at, first);
    var next, r := Position(at.t, Some(first)), Apply(replica, EntryFor(db, at, first));
    forall k | DueRow(db, q, next, k) ensures k in r && r[k] == CopyOf(db.rows[k]) {
      assert DueRow(db, q, at, k);
      ItemInvoiceLive(db, q.user, k);
    }
    forall k | DueTombstone(db, q, next, k) ensures Lacks(r, k) {
      MatchingHas(db, q, at, k);
      if k != first { assert DueTombstone(db, q, at, k); }
    }
  }

  /** When nothing matches any more, the type is passed. */
  lemma AdvanceType(db: Db, q: Query, at: Position, replica: Replica)
    requires UpToDate(db, q, at, replica) && Matching(db, q, at) == {} && at.t <= TOMBSTONES
    ensures UpToDate(db, q, Position(at.t + 1, None), replica)
  {
    hide Deliverable, Visible;
    var next := Position(at.t + 1, None);
    forall k | DueRow(db, q, next, k) ensures k in replica && replica[k] == CopyOf(db.rows[k]) {
      MatchingHas(db, q, at, k);
      assert DueRow(db, q, at, k);
    }
    forall k | DueTombstone(db, q, next, k) ensures Lacks(replica, k) {
      MatchingHas(db, q, at, k);
      assert DueTombstone(db, q, at, k);
    }
  }
}
