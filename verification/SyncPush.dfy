/** One pushed change: the decision the server takes for it, and what it then writes. */
module SyncPush {
  import opened Basics
  import opened SyncModel

  /** What happens to the transaction outside the rules written here: nothing, an error of the
    * database that rejects the change, or a temporary failure that undoes the transaction.
    */
  datatype Fault = NoFault | Rejecting | Transient

  /** A processed change, or an exception (ownership, a rejected write). */
  datatype Result = Done(db: Db, outcome: Outcome) | Throw

  function Fail(reason: Reason): Outcome {
    Outcome(Failed, Some(reason), None, None)
  }

  function Success(status: ChangeStatus, revision: Option<nat>): Outcome {
    Outcome(status, None, None, revision)
  }

  // ---- before the transaction ----

  function Validate(c: Change, protocol: nat): Option<Reason> {
    if c.id == None then Some(InvalidObjectId)
    else if protocol != 2 then None
    else if c.changeId == None then Some(ChangeIdRequired)
    else if c.kind != Create && !(c.base.Some? && c.base.value >= 1) then Some(BaseRevisionRequired)
    else None
  }

  // ---- the device_changes row ----

  /** The row for a change: a new one, or the one its change_id already has. */
  function RecordedChange(db: Db, user: UserId, c: Change): DeviceChange {
    if c.changeId.Some? && (user, c.changeId.value) in db.changes then db.changes[(user, c.changeId.value)]
    else DeviceChange(c, false, None, None)
  }

  function WithRecordedChange(db: Db, user: UserId, c: Change): Db {
    if c.changeId == None then db.(unkeyed := db.unkeyed + [(user, c)])
    else if (user, c.changeId.value) in db.changes then db
    else db.(changes := db.changes[(user, c.changeId.value) := DeviceChange(c, false, None, None)])
  }

  /** The row marked as processed. */
  function MarkSynced(db: Db, user: UserId, c: Change, outcome: Outcome): Db {
    if c.changeId == None then db
    else db.(changes := db.changes[(user, c.changeId.value) := DeviceChange(c, true, Some(outcome.status), outcome.conflictId)])
  }

  // ---- reading the current state ----

  function FindOwned(db: Db, k: Key, user: UserId): Option<Row> {
    if Owned(db, k, user) then Some(db.rows[k]) else None
  }

  /** The writable columns among the sent fields. */
  function WritableFields(t: RecordType, data: map<Field, Value>): Cols {
    map f | f in data && IsWritable(t, f) :: data[f]
  }

  predicate IsProtectedStatus(v: Value) {
    v == StatusIs(Sent) || v == StatusIs(Overdue) || v == StatusIs(SyncModel.Paid)
  }

  function RefId(v: Value): set<Id> {
    if v.Ref? then {v.id} else {}
  }

  /** The user's invoices an item change touches: its current one and, for a move, the target. */
  function ItemInvoices(db: Db, existing: Option<Row>, data: Cols, user: UserId): set<Id> {
    var current := if existing.Some? then RefId(Col(existing.value.cols, InvoiceId)) else {};
    set i | i in current + RefId(Col(data, InvoiceId)) && OwnedInvoiceRow(db, i, user)
  }

  predicate IsProtectedInvoice(db: Db, i: Id) {
    Key(Invoice, i) in db.rows && IsProtectedStatus(Col(db.rows[Key(Invoice, i)].cols, InvoiceStatus))
  }

  predicate IsProtected(db: Db, t: RecordType, existing: Option<Row>, data: Cols, user: UserId) {
    match t
    case Client => false
    case Invoice => existing.Some? && IsProtectedStatus(Col(existing.value.cols, InvoiceStatus))
    case Item => exists i :: i in ItemInvoices(db, existing, data, user) && IsProtectedInvoice(db, i)
  }

  /** Whether the item's device saw the only invoice touched as it is now. */
  predicate SawCurrentParent(db: Db, existing: Option<Row>, data: Cols, user: UserId, parent: Option<nat>) {
    var invoices := ItemInvoices(db, existing, data, user);
    && |invoices| == 1
    && parent.Some?
    && forall i :: i in invoices ==> Key(Invoice, i) in db.rows && db.rows[Key(Invoice, i)].revision == parent.value
  }

  /** History rows after `base` up to `current`. */
  function HistoryRows(db: Db, k: Key, base: nat, current: nat): set<nat> {
    set r | r in HistoryRevisions(db, k) && base < r <= current
  }

  function HistoryRevisions(db: Db, k: Key): set<nat> {
    set e | e in db.history && e.0 == k :: e.1
  }

  /** Columns the server changed after `base`, or None when the history cannot prove it: the
    * test counts the rows it found.
    */
  function ChangedSince(db: Db, k: Key, base: nat, current: nat): Option<set<Field>> {
    if base < 1 then None
    else
      var rows := HistoryRows(db, k, base, current);
      if |rows| != current - base then None
      else Some(set r, f | r in rows && f in HistoryEntry(db, k, r) :: f)
  }

  function HistoryEntry(db: Db, k: Key, r: nat): set<Field> {
    if (k, r) in db.history then db.history[(k, r)] else {}
  }

  /** Sent fields whose value differs from the stored one. */
  function Differing(cols: Cols, data: Cols): set<Field> {
    set f | f in data && (f !in cols || cols[f] != data[f])
  }

  // ---- writing ----

  /** Which columns a conflict keeps, and how much of a long text. */
  predicate ConflictKeeps(t: RecordType, f: Field) {
    match t
    case Client => f in {Name, Email, Phone, AddressJson, Notes, TagsJson, AvatarUrl}
    case Invoice => f in {ClientId, Kind, Number, InvoiceStatus, IssueDate, DueDate, Currency, Subtotal, TaxTotal, DiscountTotal, Total, Notes}
    case Item => f in {InvoiceId, Description, Quantity, UnitPrice, TaxRate, DiscountRate, LineTotal}
  }

  const CONFLICT_TEXT_LIMIT := 2000
  const CONFLICT_JSON_LIMIT := 4000

  const TRUNCATED := "\U{2026} [truncated]"

  function Bounded(v: Value): Value {
    if v.Text? && |v.text| > CONFLICT_TEXT_LIMIT then Text(v.text[..CONFLICT_TEXT_LIMIT] + TRUNCATED)
    else if v.JsonText? && |v.text| > CONFLICT_JSON_LIMIT then Text("[value too large to keep]")
    else v
  }

  function ConflictFields(t: RecordType, data: map<Field, Value>): Cols {
    map f | f in data && ConflictKeeps(t, f) :: Bounded(data[f])
  }

  /** The conflict a change leaves for its owner to resolve. */
  function ConflictOf(user: UserId, c: Change, k: Key, kind: ConflictKind, revision: Option<nat>, conflicting: set<Field>): ConflictRow {
    ConflictRow(user, k, kind, c.base, revision,
                ConflictFields(k.t, if c.kind == Delete then map[] else c.data), conflicting, Open)
  }

  function AddConflict(db: Db, row: ConflictRow): Db {
    db.(conflicts := db.conflicts[db.nextConflict := row], nextConflict := db.nextConflict + 1)
  }

  /** The reference a write leaves the record with; a null one falls back to the stored one. */
  function Reference(existing: Option<Row>, data: Cols, f: Field): Value {
    if Col(data, f) != Null then Col(data, f) else if existing.Some? then Col(existing.value.cols, f) else Null
  }

  /** An invoice's client and an item's invoice must be the user's and not deleted. */
  predicate ReferencesOk(db: Db, t: RecordType, existing: Option<Row>, data: Cols, user: UserId) {
    match t
    case Client => true
    case Invoice => (existing == None || ClientId in data) ==> ActiveClient(db, Reference(existing, data, ClientId), user)
    case Item => (existing == None || InvoiceId in data) ==> ActiveInvoice(db, Reference(existing, data, InvoiceId), user)
  }

  function NewColumns(t: RecordType, data: Cols, user: UserId): Cols {
    Defaults(t) + data + ServerColumns(t, user)
  }

  /** Validate references, then create or update the record; None is an exception. */
  function WriteRecord(db: Db, k: Key, existing: Option<Row>, data: Cols, user: UserId, tx: Txid): Option<Db>
    requires existing.Some? ==> k in db.rows
  {
    if !ReferencesOk(db, k.t, existing, data, user) || !ColsAccepted(data) then None
    else if existing.Some? then Some(UpdateRow(db, k, db.rows[k].cols + data, tx))
    else if k in db.rows || !(Required(k.t) <= data.Keys) then None
    else Some(InsertRow(db, k, NewColumns(k.t, data, user), tx))
  }

  /** Soft-delete clients and invoices, hard-delete items. */
  function DeleteRecord(db: Db, k: Key, tx: Txid): Db
    requires k in db.rows
  {
    if k.t == Item then DeleteItem(db, k, tx)
    else UpdateRow(db, k, db.rows[k].cols[DeletedAt := At(tx)], tx)
  }

  predicate IsDeleted(db: Db, k: Key, existing: Option<Row>) {
    k in db.tombstones || (existing.Some? && !IsLive(existing.value))
  }

  predicate HasOpenConflict(db: Db, k: Key, user: UserId) {
    exists i :: i in db.conflicts && db.conflicts[i].key == k && db.conflicts[i].user == user && db.conflicts[i].status == Open
  }

  // ---- the decision ----

  /** What is to be done with a change: raise an exception, answer without writing, keep the
    * change as a conflict, write fields (creating the record if it does not exist), or delete
    * the record, keeping the version removed in a conflict when the device had not seen it.
    */
  datatype Decision =
    | Raise
    | Answer(outcome: Outcome)
    | Keep(conflict: ConflictRow)
    | Write(fields: Cols, status: ChangeStatus, reportRevision: bool)
    | Remove(recoverable: Option<ConflictRow>)

  /** Clients, invoices and invoice items, for both protocols. */
  function Decide(db: Db, user: UserId, c: Change, k: Key, protocol: nat): (d: Decision)
    ensures d.Remove? ==> Owned(db, k, user) && k !in db.tombstones && IsLive(db.rows[k])
    ensures d.Write? ==> k !in db.tombstones && (k in db.rows ==> Owned(db, k, user) && IsLive(db.rows[k]))
  {
    var existing := FindOwned(db, k, user);
    if k in db.tombstones && db.tombstones[k].user != user then Raise
    else if existing == None && k !in db.tombstones && k in db.rows then Raise
    else
      var deleted := IsDeleted(db, k, existing);
      var data := WritableFields(k.t, c.data);
      var protected := IsProtected(db, k.t, existing, data, user);
      if protocol != 2 then DecideLegacy(db, user, c, k, existing, deleted, protected, data)
      else
        var base := if c.base.Some? then c.base.value else 0;
        var serverRevision := if existing.Some? then Some(existing.value.revision)
                              else if k in db.tombstones then Some(db.tombstones[k].revision) else None;
        if k.t == Item && protected && !deleted && !SawCurrentParent(db, existing, data, user, c.parent) then
          Keep(ConflictOf(user, c, k, ProtectedInvoice, serverRevision, {}))
        else if c.kind == Delete then
          if deleted || existing == None then Answer(Success(Applied, None))
          else DecideDelete(user, c, k, existing.value, protected, base)
        else if deleted then Keep(ConflictOf(user, c, k, EditAfterDelete, serverRevision, {}))
        else if existing == None then
          if c.kind == Update then Answer(Fail(NotFound)) else Write(data, Applied, true)
        else
          // a create of an existing id is an edit based on nothing
          DecideEdit(db, user, c, k, existing.value, protected, if c.kind == Create then 0 else base, data)
  }

  function DecideDelete(user: UserId, c: Change, k: Key, row: Row, protected: bool, base: nat): Decision {
    if base > row.revision then Answer(Fail(InvalidBaseRevision))
    else if base < row.revision then
      if protected then Keep(ConflictOf(user, c, k, ProtectedInvoice, Some(row.revision), {}))
      else Remove(Some(ConflictOf(user, c, k, DeleteAfterEdit, Some(row.revision), {})))
    else Remove(None)
  }

  function DecideEdit(db: Db, user: UserId, c: Change, k: Key, row: Row, protected: bool, base: nat, data: Cols): Decision {
    if base > row.revision then Answer(Fail(InvalidBaseRevision))
    else if base == row.revision then Write(data, Applied, true)
    else
      var differing := Differing(row.cols, data);
      if differing == {} then Answer(Success(Applied, Some(row.revision)))
      else if protected then Keep(ConflictOf(user, c, k, ProtectedInvoice, Some(row.revision), differing))
      else
        var changed := ChangedSince(db, k, base, row.revision);
        var overlapping := if changed == None then differing else differing * changed.value;
        if overlapping != {} then Keep(ConflictOf(user, c, k, StaleEdit, Some(row.revision), overlapping))
        else Write(map f | f in differing :: data[f], Merged, true)
  }

  /** Protocol 1: applied as sent, except where that would bypass a protection. */
  function DecideLegacy(db: Db, user: UserId, c: Change, k: Key, existing: Option<Row>, deleted: bool, protected: bool, data: Cols): Decision {
    if c.kind == Delete then
      if deleted || existing == None then Answer(Success(Applied, None))
      else if protected then Answer(Fail(UpgradeRequired))
      else Remove(None)
    else if deleted then Answer(Fail(RecordDeleted))
    else if protected then Answer(Fail(UpgradeRequired))
    else if existing.Some? && HasOpenConflict(db, k, user) then Answer(Fail(OpenConflict))
    else Write(data, Applied, false)
  }

  // ---- carrying it out ----

  function Perform(db: Db, user: UserId, k: Key, decision: Decision, tx: Txid): Result
    requires decision.Remove? ==> k in db.rows
  {
    match decision
    case Raise => Throw
    case Answer(outcome) => Done(db, outcome)
    case Keep(conflict) => Done(AddConflict(db, conflict), Outcome(Conflicted, None, Some(db.nextConflict), None))
    case Write(fields, status, report) =>
      (match WriteRecord(db, k, FindOwned(db, k, user), fields, user, tx)
       case None => Throw
       case Some(d) => Done(d, Success(status, if report && k in d.rows then Some(d.rows[k].revision) else None)))
    case Remove(recoverable) =>
      if recoverable.Some? then
        Done(DeleteRecord(AddConflict(db, recoverable.value), k, tx), Outcome(Applied, None, Some(db.nextConflict), None))
      else Done(DeleteRecord(db, k, tx), Success(Applied, None))
  }

  function ProcessChange(db: Db, user: UserId, c: Change, k: Key, protocol: nat, tx: Txid): Result {
    Perform(db, user, k, Decide(db, user, c, k, protocol), tx)
  }

  // ---- one change, one transaction ----

  datatype Pushed = Pushed(db: Db, outcome: Outcome)

  /** Record and apply one change.  A change that fails is rolled back to the savepoint: only its
    * device_changes row stays; a transient failure leaves nothing at all.
    */
  function Push(db: Db, user: UserId, c: Change, protocol: nat, fault: Fault, tx: Txid): Pushed {
    var invalid := Validate(c, protocol);
    if invalid.Some? then Pushed(db, Fail(invalid.value))
    else if fault == Transient then Pushed(db, Fail(RetryLater))
    else
      var recorded := WithRecordedChange(db, user, c);
      var row := RecordedChange(db, user, c);
      if row.change != c then Pushed(recorded, Fail(ChangeIdReused))
      else if row.synced then
        Pushed(recorded, if row.outcome == Some(Conflicted) then Outcome(Conflicted, None, row.conflictId, None)
                         else Success(Duplicate, None))
      else if fault == Rejecting then Pushed(recorded, Fail(Rejected))
      else
        match ProcessChange(recorded, user, c, Key(c.t, c.id.value), protocol, tx)
        case Throw => Pushed(recorded, Fail(Rejected))
        case Done(d, outcome) =>
          if outcome.status == Failed then Pushed(recorded, outcome)
          else Pushed(MarkSynced(d, user, c, outcome), outcome)
  }

  /** A batch: in array order, each change in its own transaction; all refused when this client
    * must be updated.
    */
  function PushAll(db: Db, user: UserId, changes: seq<Change>, protocol: nat, refuse: bool, faults: seq<Fault>, tx: Txid): (Db, seq<Outcome>)
    requires |faults| == |changes|
  {
    if changes == [] then (db, [])
    else
      var n := |changes| - 1;
      var (before, outcomes) := PushAll(db, user, changes[..n], protocol, refuse, faults[..n], tx);
      var p := if refuse then Pushed(before, Fail(UpgradeRequired)) else Push(before, user, changes[n], protocol, faults[n], tx + n);
      (p.db, outcomes + [p.outcome])
  }

  predicate NotApplied(outcome: Outcome) {
    outcome.status == Failed || outcome.status == Conflicted
  }

  function CountNotApplied(outcomes: seq<Outcome>): (n: nat)
    ensures n <= |outcomes|
  {
    if outcomes == [] then 0
    else CountNotApplied(outcomes[..|outcomes| - 1]) + if NotApplied(outcomes[|outcomes| - 1]) then 1 else 0
  }
}
