/** Applied means applied: what a push answered as applied or merged has left in the tables. */
module SyncApplied {
  import opened Basics
  import opened SyncModel
  import opened SyncPush
  import opened SyncInvariant
  import opened SyncProtection
  import opened SyncMerge
  import opened SyncTotals
  import opened SyncRecovery

  predicate IsLiveAt(db: Db, k: Key) {
    k in db.rows && IsLive(db.rows[k])
  }

  // ---- what was processed ----

  /** An answer of applied or merged is the answer of the change being carried out. */
  lemma AppliedIsPerformed(db: Db, user: UserId, c: Change, protocol: nat, fault: Fault, tx: Txid)
    requires Push(db, user, c, protocol, fault, tx).outcome.status in {Applied, Merged}
    ensures c.id.Some? && Validate(c, protocol) == None && SameTables(db, WithRecordedChange(db, user, c))
    ensures var p, performed := Push(db, user, c, protocol, fault, tx), Performed(db, user, c, protocol, tx);
            performed.Done? && performed.outcome == p.outcome && SameTables(performed.db, p.db)
  {
    hide ProcessChange, RecordedChange, WithRecordedChange, MarkSynced, SameTables;
    PushEffect(db, user, c, protocol, fault, tx);
    var r := ProcessChange(WithRecordedChange(db, user, c), user, c, Key(c.t, c.id.value), protocol, tx);
    assert r.Done? && r.outcome == Push(db, user, c, protocol, fault, tx).outcome;
    MarkedTables(r.db, user, c, r.outcome);
  }

  lemma MarkedTables(db: Db, user: UserId, c: Change, outcome: Outcome)
    ensures SameTables(db, MarkSynced(db, user, c, outcome))
  {
  }

  // ---- deletions ----

  lemma DecidedDeletion(db: Db, user: UserId, c: Change, k: Key, protocol: nat)
    requires c.kind == Delete
    ensures var d := Decide(db, user, c, k, protocol);
            && !d.Write?
            && (d.Answer? && d.outcome.status == Applied ==> k in db.tombstones || k !in db.rows || !IsLive(db.rows[k]))
  {
    hide IsProtected, SawCurrentParent, ConflictOf, WritableFields, IsLive;
  }

  lemma SoftDeleted(db: Db, k: Key, user: UserId, tx: Txid)
    requires Consistent(db) && k.t != Item && Owned(db, k, user) && IsLive(db.rows[k]) && k !in db.tombstones
    ensures var d := DeleteRecord(db, k, tx);
            && k in d.rows && !IsLive(d.rows[k]) && d.rows[k].cols == db.rows[k].cols[DeletedAt := At(tx)]
            && d.rows[k].revision == db.rows[k].revision + 1
            && d.tombstones == db.tombstones[k := Tombstone(user, db.rows[k].revision + 1, None, tx)]
  {
    DeletedColumnsAre(db, k, user, tx);
    hide Consistent, VersionsOf, TouchItems;
    var cols := db.rows[k].cols[DeletedAt := At(tx)];
    assert DeletedAt in Diff(db.rows[k].cols, cols);
    hide Diff;
  }

  lemma HardDeleted(db: Db, k: Key, user: UserId, tx: Txid)
    requires k.t == Item && Owned(db, k, user) && k !in db.tombstones
    ensures var d := DeleteRecord(db, k, tx);
            && d.rows == db.rows - {k}
            && d.tombstones == db.tombstones[k := Tombstone(user, db.rows[k].revision, Some(db.rows[k].cols), tx)]
  {
  }

  /** The deletion of a live record: a tombstone of its owner stands for it, which keeps the last state of a
    * line; a client or an invoice stays as it was, marked deleted.
    */
  ghost predicate IsDeletion(a: Db, b: Db, k: Key, user: UserId, tx: Txid)
    requires k in a.rows
  {
    && !IsLiveAt(b, k) && k in b.tombstones && b.tombstones.Keys == a.tombstones.Keys + {k}
    && b.tombstones[k].user == user && b.tombstones[k].txid == tx
    && (k.t == Item ==> k !in b.rows && b.tombstones[k].lastState == Some(a.rows[k].cols)
                        && b.tombstones[k].revision == a.rows[k].revision)
    && (k.t != Item ==> k in b.rows && b.rows[k].cols == a.rows[k].cols[DeletedAt := At(tx)]
                        && b.rows[k].revision == b.tombstones[k].revision == a.rows[k].revision + 1)
  }

  lemma DeletedIsDeletion(db: Db, k: Key, user: UserId, tx: Txid)
    requires Consistent(db) && Owned(db, k, user) && IsLive(db.rows[k]) && k !in db.tombstones
    ensures IsDeletion(db, DeleteRecord(db, k, tx), k, user, tx)
  {
    hide Consistent, DeleteRecord, IsLive, Owned;
    if k.t == Item { HardDeleted(db, k, user, tx); } else { SoftDeleted(db, k, user, tx); }
  }

  /** A deletion that is answered applied, in either protocol: the record is not live; if it was, it was
    * the user's, and is deleted now; if it was not, no record and no tombstone has changed.
    */
  lemma AppliedDeletion(db: Db, user: UserId, c: Change, protocol: nat, fault: Fault, tx: Txid)
    requires Consistent(db) && c.kind == Delete && Push(db, user, c, protocol, fault, tx).outcome.status == Applied
    ensures c.id.Some?
    ensures var d, k := Push(db, user, c, protocol, fault, tx).db, KeyOf(c);
            && !IsLiveAt(d, k)
            && (IsLiveAt(db, k) ==> Owned(db, k, user) && IsDeletion(db, d, k, user, tx))
            && (!IsLiveAt(db, k) ==> d.rows == db.rows && d.tombstones == db.tombstones)
  {
    hide Push, Perform, Decide, Consistent, IsLive, Owned;
    AppliedIsPerformed(db, user, c, protocol, fault, tx);
    var r, k := WithRecordedChange(db, user, c), KeyOf(c);
    SameTablesConsistent(db, r);
    PerformedDeletion(r, user, c, k, protocol, tx);
    SameOwner(db, r, k, user);
  }

  lemma SameOwner(a: Db, b: Db, k: Key, user: UserId)
    requires SameTables(a, b)
    ensures Owned(a, k, user) == Owned(b, k, user)
  {
  }

  lemma PerformedDeletion(db: Db, user: UserId, c: Change, k: Key, protocol: nat, tx: Txid)
    requires Consistent(db) && c.kind == Delete
    requires var p := Perform(db, user, k, Decide(db, user, c, k, protocol), tx); p.Done? && p.outcome.status == Applied
    ensures var d := Perform(db, user, k, Decide(db, user, c, k, protocol), tx).db;
            && !IsLiveAt(d, k)
            && (IsLiveAt(db, k) ==> Owned(db, k, user) && IsDeletion(db, d, k, user, tx))
            && (!IsLiveAt(db, k) ==> d.rows == db.rows && d.tombstones == db.tombstones)
  {
    hide Decide, HistoriesOk, ItemsOk, IdsOk, DeleteRecord, IsLive, Owned, WriteRecord, IsDeletion;
    DecideLive(db, user, c, k, protocol);
    DecidedDeletion(db, user, c, k, protocol);
    var d := Decide(db, user, c, k, protocol);
    if d.Remove? {
      var kept := if d.recoverable.Some? then AddConflict(db, d.recoverable.value) else db;
      if d.recoverable.Some? { AddConflictKeeps(db, d.recoverable.value); }
      SameRecords(db, kept, k, user);
      OwnedIsStored(kept, k, user);
      DeletedIsDeletion(kept, k, user, tx);
      DeletionFrom(db, kept, DeleteRecord(kept, k, tx), k, user, tx);
    }
  }

  lemma OwnedIsStored(db: Db, k: Key, user: UserId)
    requires Owned(db, k, user)
    ensures k in db.rows
  {
  }

  lemma NotStored(db: Db, k: Key, user: UserId)
    requires k !in db.rows
    ensures !Owned(db, k, user)
  {
  }

  lemma SameRecords(a: Db, b: Db, k: Key, user: UserId)
    requires a.rows == b.rows
    ensures Owned(a, k, user) == Owned(b, k, user)
  {
  }

  lemma DeletionFrom(a: Db, b: Db, d: Db, k: Key, user: UserId, tx: Txid)
    requires a.rows == b.rows && a.tombstones == b.tombstones && k in b.rows && IsDeletion(b, d, k, user, tx)
    ensures IsDeletion(a, d, k, user, tx) && !IsLiveAt(d, k)
  {
  }

  // ---- creations and edits ----

  /** The columns a device may send, table by table. */
  function SentColumns(t: RecordType): set<Field> {
    match t
    case Client => {Name, Email, Phone, AddressJson, TagsJson, AvatarUrl, Notes}
    case Invoice =>
      {ClientId, Kind, Number, InvoiceStatus, IssueDate, DueDate, Currency, Subtotal, TaxTotal, DiscountTotal, Total, Notes, MetadataJson}
    case Item => {InvoiceId, Description, Quantity, UnitPrice, TaxRate, DiscountRate, LineTotal}
  }

  lemma SentAreWritable(t: RecordType, f: Field)
    ensures f in SentColumns(t) <==> IsWritable(t, f)
  {
  }

  /** The columns a new record must come with. */
  function MustSend(t: RecordType): set<Field> {
    match t
    case Client => {Name}
    case Invoice => {ClientId, Number, IssueDate}
    case Item => {InvoiceId, Description}
  }

  /** What a new record holds in a column that was not sent: it is an invoice, a draft, in US dollars, with no
    * tags; of one unit; and otherwise nothing.
    */
  function Initial(f: Field): Value {
    match f
    case Kind => Text("invoice")
    case InvoiceStatus => StatusIs(Draft)
    case Currency => Text("USD")
    case TagsJson => JsonText("[]")
    case Quantity => Num(1.0)
    case UnitPrice | TaxRate | DiscountRate | LineTotal | Subtotal | TaxTotal | DiscountTotal | Total => Num(0.0)
    case _ => Null
  }

  lemma NewColumnsAre(t: RecordType)
    ensures Required(t) == MustSend(t)
    ensures forall f :: f in SentColumns(t) && f !in MustSend(t) <==> f in Defaults(t)
    ensures forall f :: f in Defaults(t) ==> Defaults(t)[f] == Initial(f)
  {
    assert Required(t) == MustSend(t);
    hide MustSend, SentColumns, Defaults, Initial;
    forall f ensures f in SentColumns(t) && f !in MustSend(t) <==> f in Defaults(t) {
      match t
      case Client => ClientColumn(f);
      case Invoice => InvoiceColumn(f);
      case Item => ItemColumn(f);
    }
    forall f | f in Defaults(t) ensures Defaults(t)[f] == Initial(f) {
      StartsWith(t, f);
    }
  }

  lemma ClientColumn(f: Field)
    ensures f in SentColumns(Client) && f !in MustSend(Client) <==> f in Defaults(Client)
  {
  }

  lemma InvoiceColumn(f: Field)
    ensures f in SentColumns(Invoice) && f !in MustSend(Invoice) <==> f in Defaults(Invoice)
  {
  }

  lemma ItemColumn(f: Field)
    ensures f in SentColumns(Item) && f !in MustSend(Item) <==> f in Defaults(Item)
  {
  }

  lemma StartsWith(t: RecordType, f: Field)
    requires f in Defaults(t)
    ensures Defaults(t)[f] == Initial(f)
  {
    match t
    case Client =>
    case Invoice => InvoiceStartsWith(f);
    case Item =>
  }

  lemma InvoiceStartsWith(f: Field)
    requires f in Defaults(Invoice)
    ensures Defaults(Invoice)[f] == Initial(f)
  {
  }

  /** What the row holds after a creation or an edit of it: every column sent as sent; of the others, those of
    * an existing record as they were, and of a new one the defaults, the owner, and no deletion.
    */
  ghost predicate HoldsSent(a: Db, b: Db, k: Key, user: UserId, data: map<Field, Value>) {
    && IsLiveAt(b, k) && k !in b.tombstones
    && (forall f :: f in data && f in SentColumns(k.t) ==> f in b.rows[k].cols && b.rows[k].cols[f] == data[f])
    && (k in a.rows ==>
          && Owned(a, k, user) && IsLiveAt(a, k)
          && b.rows[k].cols.Keys == a.rows[k].cols.Keys
          && (forall f :: f in a.rows[k].cols && !(f in data && f in SentColumns(k.t)) ==> b.rows[k].cols[f] == a.rows[k].cols[f])
          && b.rows[k].revision == a.rows[k].revision + if b.rows[k].cols == a.rows[k].cols then 0 else 1)
    && (k !in a.rows ==>
          && k !in a.tombstones && b.rows[k].revision == 1
          && MustSend(k.t) <= data.Keys
          && (forall f :: f in SentColumns(k.t) && f !in data ==> f in b.rows[k].cols && b.rows[k].cols[f] == Initial(f))
          && (k.t != Item ==> Col(b.rows[k].cols, Owner) == User(user) && Col(b.rows[k].cols, DeletedAt) == Null))
  }

  lemma DecidedWriting(db: Db, user: UserId, c: Change, k: Key, protocol: nat)
    requires c.kind != Delete
    ensures var d, data := Decide(db, user, c, k, protocol), WritableFields(k.t, c.data);
            && !d.Remove?
            && (d.Answer? && d.outcome.status in {Applied, Merged} ==>
                  k !in db.tombstones && Owned(db, k, user) && IsLive(db.rows[k]) && Differing(db.rows[k].cols, data) == {})
            && (d.Write? ==> d.fields == data
                             || (Owned(db, k, user) && d.fields.Keys == Differing(db.rows[k].cols, data)
                                 && forall f :: f in d.fields ==> f in data && d.fields[f] == data[f]))
  {
    hide IsProtected, SawCurrentParent, ConflictOf, WritableFields, IsLive, Differing, ChangedSince, HasOpenConflict, Owned;
    DifferingAreSent(db, k, WritableFields(k.t, c.data));
    if Owned(db, k, user) { OwnedIsStored(db, k, user); }
    forall protected, base | Owned(db, k, user) ensures EditsOnly(db, user, c, k, protected, base) {
      DecidedEdit(db, user, c, k, protected, base);
    }
    hide DecideEdit;
    var base := if c.kind == Create then 0 else if c.base.Some? then c.base.value else 0;
    var data := WritableFields(k.t, c.data);
    if Owned(db, k, user) {
      assert EditsOnly(db, user, c, k, IsProtected(db, k.t, Some(db.rows[k]), data, user), base);
    }
  }

  predicate EditsOnly(db: Db, user: UserId, c: Change, k: Key, protected: bool, base: nat) {
    k in db.rows ==>
      var data := WritableFields(k.t, c.data);
      var d := DecideEdit(db, user, c, k, db.rows[k], protected, base, data);
      && !d.Remove?
      && (d.Answer? && d.outcome.status in {Applied, Merged} ==> Differing(db.rows[k].cols, data) == {})
      && (d.Write? ==> d.fields == data
                       || (d.fields.Keys == Differing(db.rows[k].cols, data)
                           && forall f :: f in d.fields ==> f in data && d.fields[f] == data[f]))
  }

  lemma DecidedEdit(db: Db, user: UserId, c: Change, k: Key, protected: bool, base: nat)
    ensures EditsOnly(db, user, c, k, protected, base)
  {
    hide WritableFields, ConflictOf, ChangedSince;
  }

  lemma DifferingAreSent(db: Db, k: Key, data: Cols)
    ensures k in db.rows ==> forall f :: f in Differing(db.rows[k].cols, data) ==> f in data
  {
  }

  /** Writing only what differs leaves the row as writing everything does. */
  lemma DifferingSuffice(cols: Cols, data: Cols)
    requires forall f :: f in data ==> f in cols
    ensures forall fields: Cols :: fields.Keys == Differing(cols, data) && (forall f :: f in fields ==> f in data && fields[f] == data[f])
              ==> cols + fields == cols + data
    ensures Differing(cols, data) == {} ==> cols + data == cols
  {
    if Differing(cols, data) == {} {
      forall f | f in data ensures cols[f] == data[f] {
        assert f !in Differing(cols, data);
      }
    }
  }

  lemma SentOf(t: RecordType, data: map<Field, Value>)
    ensures var w := WritableFields(t, data);
            forall f :: f in w <==> f in data && f in SentColumns(t)
    ensures var w := WritableFields(t, data); forall f :: f in w ==> w[f] == data[f]
  {
    forall f ensures f in SentColumns(t) <==> IsWritable(t, f) { SentAreWritable(t, f); }
    hide IsWritable, SentColumns;
  }

  lemma EditedHoldsSent(a: Db, b: Db, k: Key, user: UserId, data: map<Field, Value>)
    requires Consistent(a) && Owned(a, k, user) && IsLive(a.rows[k]) && k !in a.tombstones && k in b.rows && k !in b.tombstones
    requires b.rows[k].cols == a.rows[k].cols + WritableFields(k.t, data)
    requires b.rows[k].revision == a.rows[k].revision + if b.rows[k].cols == a.rows[k].cols then 0 else 1
    ensures HoldsSent(a, b, k, user, data)
  {
    hide HistoriesOk, TombstonesOk, ItemsOk, IdsOk, WritableFields, SentColumns, Owned, RowOk;
    OwnedIsStored(a, k, user);
    SentOf(k.t, data);
    var w := WritableFields(k.t, data);
    RowIsOk(a, k);
    WritableInRow(k.t, a.rows[k].cols, data);
    NoServerColumn(k.t, data);
  }

  lemma WritableInRow(t: RecordType, cols: Cols, data: map<Field, Value>)
    requires RowOk(t, cols)
    ensures forall f :: f in WritableFields(t, data) ==> f in cols
  {
    hide IsWritable, ColsAccepted;
  }

  lemma NoServerColumn(t: RecordType, data: map<Field, Value>)
    ensures DeletedAt !in WritableFields(t, data) && Owner !in WritableFields(t, data)
  {
    ServerSetColumns(t, 0);
    hide IsWritable;
  }

  lemma BumpedRevision(db: Db, k: Key, cols: Cols, tx: Txid)
    requires k in db.rows && IsLive(db.rows[k]) && Col(cols, DeletedAt) == Null && RowOk(k.t, cols) && RowOk(k.t, db.rows[k].cols)
    ensures var d := UpdateRow(db, k, cols, tx);
            && k in d.rows && d.rows[k].cols == cols && d.tombstones == db.tombstones
            && d.rows[k].revision == db.rows[k].revision + if cols == db.rows[k].cols then 0 else 1
  {
    BumpShape(db, k, cols, tx);
    DiffIsNone(db.rows[k].cols, cols);
    hide RowOk, Diff, VersionsOf, TouchItems, UserOf;
  }

  lemma DiffIsNone(a: Cols, b: Cols)
    ensures a == b ==> Diff(a, b) == {}
  {
  }

  /** Writing an owned record: the row with the columns written, and no tombstone more or less. */
  lemma WrittenRow(db: Db, k: Key, fields: Cols, user: UserId, tx: Txid)
    requires Consistent(db) && Owned(db, k, user) && IsLive(db.rows[k]) && OnlyWritable(k.t, fields)
    requires WriteRecord(db, k, FindOwned(db, k, user), fields, user, tx).Some?
    ensures var w := WriteRecord(db, k, FindOwned(db, k, user), fields, user, tx).value;
            && k in w.rows && w.rows[k].cols == db.rows[k].cols + fields && w.tombstones == db.tombstones
            && w.rows[k].revision == db.rows[k].revision + if w.rows[k].cols == db.rows[k].cols then 0 else 1
  {
    WriteKeeps(db, k, fields, user, tx);
    assert DeletedAt !in fields by { ServerSetColumns(k.t, user); }
    hide HistoriesOk, TombstonesOk, ItemsOk, IdsOk, UpdateRow, RowOk, ReferencesOk, ColsAccepted, OnlyWritable;
    RowIsOk(db, k);
    BumpedRevision(db, k, db.rows[k].cols + fields, tx);
  }

  lemma NewRowHoldsSent(a: Db, k: Key, user: UserId, data: map<Field, Value>, tx: Txid)
    requires k !in a.rows && k !in a.tombstones && MustSend(k.t) <= data.Keys
    ensures HoldsSent(a, InsertRow(a, k, NewColumns(k.t, WritableFields(k.t, data), user), tx), k, user, data)
  {
    SentOf(k.t, data);
    NoServerColumn(k.t, data);
    ServerSetColumns(k.t, user);
    NewColumnsHold(k.t, data, user);
    hide WritableFields, NewColumns, SentColumns, ServerColumns, MustSend, Initial;
  }

  lemma NewColumnsHold(t: RecordType, data: map<Field, Value>, user: UserId)
    requires MustSend(t) <= data.Keys
    ensures var cols := NewColumns(t, WritableFields(t, data), user);
            && (forall f :: f in data && f in SentColumns(t) ==> f in cols && cols[f] == data[f])
            && (forall f :: f in SentColumns(t) && f !in data ==> f in cols && cols[f] == Initial(f))
            && (t != Item ==> Col(cols, Owner) == User(user)) && Col(cols, DeletedAt) == Null
  {
    SentOf(t, data);
    ServerSetColumns(t, user);
    NoServerColumn(t, data);
    NotDefaults(t);
    OwnerIsUser(t, user);
    NewColumnsAre(t);
    hide WritableFields, SentColumns, Defaults, ServerColumns, MustSend, Initial;
  }

  lemma NotDefaults(t: RecordType)
    ensures Owner !in Defaults(t) && DeletedAt !in Defaults(t) && Owner !in SentColumns(t) && DeletedAt !in SentColumns(t)
  {
  }

  lemma OwnerIsUser(t: RecordType, user: UserId)
    ensures t != Item ==> Col(ServerColumns(t, user), Owner) == User(user)
  {
  }

  lemma PerformedWriting(db: Db, user: UserId, c: Change, k: Key, protocol: nat, tx: Txid)
    requires Consistent(db) && c.kind != Delete
    requires var p := Perform(db, user, k, Decide(db, user, c, k, protocol), tx); p.Done? && p.outcome.status in {Applied, Merged}
    ensures HoldsSent(db, Perform(db, user, k, Decide(db, user, c, k, protocol), tx).db, k, user, c.data)
  {
    hide Decide, Consistent, IsLive, Owned, WriteRecord, HoldsSent, Differing, WritableFields;
    DecideLive(db, user, c, k, protocol);
    DecidedWriting(db, user, c, k, protocol);
    DecidedFields(db, user, c, k, protocol);
    var d := Decide(db, user, c, k, protocol);
    var data := WritableFields(k.t, c.data);
    if d.Write? && k !in db.rows {
      assert !Owned(db, k, user) by { NotStored(db, k, user); }
      NewIsWritten(db, k, d.fields, user, tx);
      NewColumnsAre(k.t);
      SentAreOf(k.t, c.data);
      NewRowHoldsSent(db, k, user, c.data, tx);
    } else {
      OwnedIsStored(db, k, user);
      DataInRow(db, k, c.data);
      DifferingSuffice(db.rows[k].cols, data);
      if d.Write? {
        WrittenRow(db, k, d.fields, user, tx);
        EditedHoldsSent(db, WriteRecord(db, k, FindOwned(db, k, user), d.fields, user, tx).value, k, user, c.data);
      } else {
        EditedHoldsSent(db, db, k, user, c.data);
      }
    }
  }

  lemma SentAreOf(t: RecordType, data: map<Field, Value>)
    ensures WritableFields(t, data).Keys <= data.Keys
  {
  }

  lemma NewIsWritten(db: Db, k: Key, fields: Cols, user: UserId, tx: Txid)
    requires k !in db.rows && WriteRecord(db, k, FindOwned(db, k, user), fields, user, tx).Some?
    ensures WriteRecord(db, k, FindOwned(db, k, user), fields, user, tx).value == InsertRow(db, k, NewColumns(k.t, fields, user), tx)
    ensures Required(k.t) <= fields.Keys
  {
    hide InsertRow, NewColumns, ReferencesOk, ColsAccepted, Required;
  }

  lemma DataInRow(db: Db, k: Key, data: map<Field, Value>)
    requires Consistent(db) && k in db.rows
    ensures forall f :: f in WritableFields(k.t, data) ==> f in db.rows[k].cols
  {
    hide WritableFields, TombstonesOk, ItemsOk, IdsOk, RowOk;
    RowIsOk(db, k);
    WritableInRow(k.t, db.rows[k].cols, data);
  }

  lemma DecidedReport(db: Db, user: UserId, c: Change, k: Key, protocol: nat)
    requires c.kind != Delete
    ensures var d := Decide(db, user, c, k, protocol);
            && (d.Write? ==> (d.reportRevision <==> protocol == 2))
            && (d.Answer? && d.outcome.status in {Applied, Merged} ==>
                  protocol == 2 && k in db.rows && d.outcome.revision == Some(db.rows[k].revision))
  {
    hide IsProtected, SawCurrentParent, ConflictOf, WritableFields, IsLive, Differing, ChangedSince, HasOpenConflict, Owned;
    if Owned(db, k, user) { OwnedIsStored(db, k, user); }
  }

  lemma PerformedReport(db: Db, user: UserId, c: Change, k: Key, protocol: nat, tx: Txid)
    requires c.kind != Delete
    requires var p := Perform(db, user, k, Decide(db, user, c, k, protocol), tx); p.Done? && p.outcome.status in {Applied, Merged}
    requires k in Perform(db, user, k, Decide(db, user, c, k, protocol), tx).db.rows
    ensures var p := Perform(db, user, k, Decide(db, user, c, k, protocol), tx);
            p.outcome.revision == if protocol == 2 then Some(p.db.rows[k].revision) else None
  {
    hide Decide, WriteRecord, DeleteRecord, FindOwned;
    DecideLive(db, user, c, k, protocol);
    DecidedReport(db, user, c, k, protocol);
    DecidedWriting(db, user, c, k, protocol);
  }

  lemma SameStored(a: Db, b: Db, k: Key)
    requires SameTables(a, b)
    ensures k in a.rows <==> k in b.rows
    ensures k in a.rows ==> a.rows[k] == b.rows[k]
  {
  }

  lemma HeldIsStored(a: Db, b: Db, k: Key, user: UserId, data: map<Field, Value>)
    requires HoldsSent(a, b, k, user, data)
    ensures k in b.rows
  {
  }

  /** A creation or an update that is answered applied or merged, in either protocol: the record is live and
    * the user's, and every column the device sent holds the value it sent; protocol 2 is told the revision.
    */
  lemma AppliedWriting(db: Db, user: UserId, c: Change, protocol: nat, fault: Fault, tx: Txid)
    requires Consistent(db) && c.kind != Delete && Push(db, user, c, protocol, fault, tx).outcome.status in {Applied, Merged}
    ensures c.id.Some?
    ensures var p := Push(db, user, c, protocol, fault, tx);
            && Consistent(p.db) && HoldsSent(db, p.db, KeyOf(c), user, c.data) && KeyOf(c) in p.db.rows
            && p.outcome.revision == if protocol == 2 then Some(p.db.rows[KeyOf(c)].revision) else None
  {
    hide Push, Perform, Decide, Consistent, HoldsSent;
    AppliedIsPerformed(db, user, c, protocol, fault, tx);
    PushKeeps(db, user, c, protocol, fault, tx);
    var r, k := WithRecordedChange(db, user, c), KeyOf(c);
    SameTablesConsistent(db, r);
    PerformedWriting(r, user, c, k, protocol, tx);
    var performed, d := Performed(db, user, c, protocol, tx).db, Push(db, user, c, protocol, fault, tx).db;
    SameSent(db, r, performed, d, k, user, c.data);
    HeldIsStored(db, d, k, user, c.data);
    SameStored(performed, d, k);
    PerformedReport(r, user, c, k, protocol, tx);
  }

  lemma SameSent(a: Db, x: Db, y: Db, b: Db, k: Key, user: UserId, data: map<Field, Value>)
    requires SameTables(a, x) && SameTables(y, b) && HoldsSent(x, y, k, user, data)
    ensures HoldsSent(a, b, k, user, data)
  {
    SameOwner(a, x, k, user);
    hide Owned, SentColumns, MustSend, Initial;
  }
}
