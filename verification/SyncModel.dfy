/** The tables behind offline sync and the two database triggers that every write passes through.
  *
  * A record is a row of `clients`, `invoices` or `invoice_items`; its columns are a map from
  * column to value.  One value of `Db` is the committed content of the tables; every operation
  * of the system is one transaction, a step from one `Db` to the next.
  */
module SyncModel {
  import opened Basics

  type UserId = nat
  type Id = nat
  type Txid = nat

  datatype RecordType = Client | Invoice | Item

  datatype Key = Key(t: RecordType, id: Id)

  datatype Status = Draft | Sent | Paid | Overdue | Cancelled

  /** Columns of the three tables, and names a device may send that are no column at all. */
  datatype Field =
    | Name | Email | Phone | AddressJson | TagsJson | AvatarUrl | Notes
    | ClientId | Kind | Number | InvoiceStatus | IssueDate | DueDate | Currency
    | Subtotal | TaxTotal | DiscountTotal | Total | MetadataJson
    | InvoiceId | Description | Quantity | UnitPrice | TaxRate | DiscountRate | LineTotal
    | RecordId | Owner | Revision | DeletedAt | CreatedAt | UpdatedAt
    | NoColumn(name: string)

  datatype Value =
    | Null
    | Text(text: string)
    | JsonText(text: string)
    | Num(x: real)
    | Ref(id: Id)
    | StatusIs(status: Status)
    | User(user: UserId)
    | At(time: nat)

  type Cols = map<Field, Value>

  /** A stored row: its columns, its revision, and the transaction that last changed it. */
  datatype Row = Row(cols: Cols, revision: nat, txid: Txid)

  datatype Tombstone = Tombstone(user: UserId, revision: nat, lastState: Option<Cols>, txid: Txid)

  datatype ChangeKind = Create | Update | Delete

  /** A change as a device sends it. `id` is None when object_id is not a UUID. */
  datatype Change = Change(
    changeId: Option<Id>,
    base: Option<nat>,
    parent: Option<nat>,
    t: RecordType,
    id: Option<Id>,
    kind: ChangeKind,
    data: map<Field, Value>)

  datatype ChangeStatus = Applied | Merged | Duplicate | Conflicted | Failed

  datatype Reason =
    | InvalidObjectId | ChangeIdRequired | BaseRevisionRequired | ChangeIdReused
    | InvalidBaseRevision | NotFound | RecordDeleted | OpenConflict
    | UpgradeRequired | Rejected | RetryLater

  datatype Outcome = Outcome(
    status: ChangeStatus, reason: Option<Reason>, conflictId: Option<Id>, revision: Option<nat>)

  /** A row of device_changes: what was sent, and how it ended once it was processed. */
  datatype DeviceChange = DeviceChange(
    change: Change, synced: bool, outcome: Option<ChangeStatus>, conflictId: Option<Id>)

  datatype ConflictKind = StaleEdit | ProtectedInvoice | EditAfterDelete | DeleteAfterEdit

  datatype ConflictStatus = Open | Resolved | Dismissed

  datatype ConflictRow = ConflictRow(
    user: UserId,
    key: Key,
    kind: ConflictKind,
    base: Option<nat>,
    serverRevision: Option<nat>,
    clientFields: map<Field, Value>,
    conflicting: set<Field>,
    status: ConflictStatus)

  /** The tables. The last two members are read by no operation, they only let one speak of what
    * happened: `versions` keeps, for each id, the column values of every revision since the row
    * was last inserted, and `forgotten` the deleted ids whose tombstone is gone.
    */
  datatype Db = Db(
    rows: map<Key, Row>,
    history: map<(Key, nat), set<Field>>,
    tombstones: map<Key, Tombstone>,
    changes: map<(UserId, Id), DeviceChange>,
    unkeyed: seq<(UserId, Change)>,
    conflicts: map<Id, ConflictRow>,
    nextConflict: Id,
    versions: map<Key, seq<Cols>>,
    forgotten: set<Key>)

  const EMPTY := Db(map[], map[], map[], map[], [], map[], 0, map[], {})

  // ---- columns ----

  /** Columns an insert must name. */
  function Required(t: RecordType): set<Field> {
    match t
    case Client => {Name}
    case Invoice => {ClientId, Number, IssueDate}
    case Item => {InvoiceId, Description}
  }

  /** Columns an insert may leave out, with the values they then get. */
  function Defaults(t: RecordType): Cols {
    match t
    case Client =>
      map[Email := Null, Phone := Null, AddressJson := Null, TagsJson := JsonText("[]"), AvatarUrl := Null, Notes := Null]
    case Invoice =>
      map[Kind := Text("invoice"), InvoiceStatus := StatusIs(Draft), DueDate := Null, Currency := Text("USD"),
          Subtotal := Num(0.0), TaxTotal := Num(0.0), DiscountTotal := Num(0.0), Total := Num(0.0),
          Notes := Null, MetadataJson := Null]
    case Item =>
      map[Quantity := Num(1.0), UnitPrice := Num(0.0), TaxRate := Num(0.0), DiscountRate := Num(0.0), LineTotal := Num(0.0)]
  }

  /** Columns a device may set: every column but the primary key, owner, revision and timestamps. */
  predicate IsWritable(t: RecordType, f: Field) {
    f in Required(t) || f in Defaults(t)
  }

  /** The columns of a table that hold its data (revision, txid and timestamps aside). */
  predicate IsColumn(t: RecordType, f: Field) {
    IsWritable(t, f) || (t != Item && (f.Owner? || f.DeletedAt?))
  }

  /** Columns only the server sets; an item has no owner of its own and is never soft-deleted. */
  function ServerColumns(t: RecordType, user: UserId): Cols {
    if t == Item then map[] else map[Owner := User(user), DeletedAt := Null]
  }

  /** Whether the column's type and NOT NULL constraint accept the value. */
  predicate FieldAccepts(f: Field, v: Value) {
    match f
    case Name | Description | Number | IssueDate | Currency | Kind => v.Text?
    case Email | Phone | AvatarUrl | Notes | DueDate => v.Text? || v.Null?
    case AddressJson | TagsJson | MetadataJson => v.JsonText? || v.Text? || v.Null?
    case Subtotal | TaxTotal | DiscountTotal | Total => v.Num?
    case Quantity | UnitPrice | TaxRate | DiscountRate | LineTotal => v.Num?
    case ClientId | InvoiceId => v.Ref?
    case InvoiceStatus => v.StatusIs?
    case Owner => v.User?
    case DeletedAt => v.Null? || v.At?
    case _ => false
  }

  predicate ColsAccepted(cols: Cols) {
    forall f :: f in cols ==> FieldAccepts(f, cols[f])
  }

  function Col(cols: Cols, f: Field): Value {
    if f in cols then cols[f] else Null
  }

  predicate IsLive(row: Row) {
    Col(row.cols, DeletedAt) == Null
  }

  // ---- ownership ----

  predicate OwnedInvoiceRow(db: Db, invoice: Id, user: UserId) {
    var k := Key(Invoice, invoice);
    k in db.rows && Col(db.rows[k].cols, Owner) == User(user)
  }

  /** Whether the row exists and is the user's; an item belongs to the owner of its invoice. */
  predicate Owned(db: Db, k: Key, user: UserId) {
    && k in db.rows
    && if k.t == Item then
         var inv := Col(db.rows[k].cols, InvoiceId);
         inv.Ref? && OwnedInvoiceRow(db, inv.id, user)
       else Col(db.rows[k].cols, Owner) == User(user)
  }

  predicate ActiveClient(db: Db, v: Value, user: UserId) {
    v.Ref? && var k := Key(Client, v.id);
    k in db.rows && IsLive(db.rows[k]) && Owned(db, k, user)
  }

  predicate ActiveInvoice(db: Db, v: Value, user: UserId) {
    v.Ref? && var k := Key(Invoice, v.id);
    k in db.rows && IsLive(db.rows[k]) && Owned(db, k, user)
  }

  // ---- the revision trigger ----

  /** Columns whose values differ; both rows have the same columns. */
  function Diff(before: Cols, after: Cols): set<Field> {
    set f | f in after && (f !in before || before[f] != after[f])
  }

  /** sync_bump_revision, BEFORE UPDATE: a write that changes nothing keeps revision and txid;
    * any other moves the revision by one, whatever the application wrote, and records which
    * columns it changed.
    */
  function BumpRevision(db: Db, k: Key, cols: Cols, tx: Txid): Db
    requires k in db.rows
  {
    var before := db.rows[k];
    if Diff(before.cols, cols) == {} then db
    else
      db.(rows := db.rows[k := Row(cols, before.revision + 1, tx)],
          history := db.history[(k, before.revision + 1) := Diff(before.cols, cols)],
          versions := db.versions[k := VersionsOf(db, k) + [cols]])
  }

  function VersionsOf(db: Db, k: Key): seq<Cols> {
    if k in db.versions then db.versions[k] else []
  }

  predicate IsItemOf(k: Key, row: Row, invoice: Id) {
    k.t == Item && Col(row.cols, InvoiceId) == Ref(invoice)
  }

  /** Items of an invoice are delivered again: only their txid moves. */
  function TouchItems(rows: map<Key, Row>, invoice: Id, tx: Txid): (touched: map<Key, Row>)
    ensures touched.Keys == rows.Keys
    ensures forall k :: k in rows ==> touched[k].cols == rows[k].cols && touched[k].revision == rows[k].revision
  {
    map k | k in rows :: if IsItemOf(k, rows[k], invoice) then rows[k].(txid := tx) else rows[k]
  }

  // ---- the tombstone trigger ----

  /** sync_record_tombstone, AFTER UPDATE OF deleted_at: a soft delete writes the tombstone, a
    * restore removes it and touches the children the pulls skipped meanwhile.
    */
  function TombstoneOnUpdate(db: Db, k: Key, before: Row, tx: Txid): Db
    requires k in db.rows
  {
    var after := db.rows[k];
    if IsLive(before) && !IsLive(after) then
      var user := if k in db.tombstones then db.tombstones[k].user else UserOf(after.cols);
      var last := if k in db.tombstones then db.tombstones[k].lastState else None;
      db.(tombstones := db.tombstones[k := Tombstone(user, after.revision, last, tx)])
    else if !IsLive(before) && IsLive(after) then
      db.(tombstones := db.tombstones - {k},
          rows := if k.t == Invoice then TouchItems(db.rows, k.id, tx) else db.rows)
    else db
  }

  function UserOf(cols: Cols): UserId {
    if Col(cols, Owner).User? then Col(cols, Owner).user else 0
  }

  /** An UPDATE of one row, with both triggers. */
  function UpdateRow(db: Db, k: Key, cols: Cols, tx: Txid): Db
    requires k in db.rows
  {
    TombstoneOnUpdate(BumpRevision(db, k, cols, tx), k, db.rows[k], tx)
  }

  /** An INSERT: revision 1, and a new list of versions. */
  function InsertRow(db: Db, k: Key, cols: Cols, tx: Txid): Db {
    db.(rows := db.rows[k := Row(cols, 1, tx)], versions := db.versions[k := [cols]], forgotten := db.forgotten - {k})
  }

  /** DELETE of a tombstone. */
  function DropTombstones(db: Db, dropped: set<Key>): Db {
    db.(tombstones := db.tombstones - dropped, forgotten := db.forgotten + db.tombstones.Keys * dropped)
  }

  /** DELETE of an invoice item, with its trigger: the tombstone keeps the last state. */
  function DeleteItem(db: Db, k: Key, tx: Txid): Db
    requires k in db.rows
  {
    var row := db.rows[k];
    var inv := Col(row.cols, InvoiceId);
    var gone := db.(rows := db.rows - {k});
    if inv.Ref? && Key(Invoice, inv.id) in db.rows then
      var owner := UserOf(db.rows[Key(Invoice, inv.id)].cols);
      var user := if k in db.tombstones then db.tombstones[k].user else owner;
      gone.(tombstones := db.tombstones[k := Tombstone(user, row.revision, Some(row.cols), tx)])
    else gone
  }
}
