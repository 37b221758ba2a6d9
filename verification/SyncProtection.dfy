/** What no push can do: overwrite a sent, overdue or paid invoice it has not seen, or bring a
  * deleted record back.
  */
module SyncProtection {
  import opened Basics
  import opened SyncModel
  import opened SyncPush
  import opened SyncInvariant

  // ---- a push writes one record ----

  lemma UpdateOthers(db: Db, k: Key, cols: Cols, tx: Txid)
    requires k in db.rows && IsLive(db.rows[k])
    ensures var d := UpdateRow(db, k, cols, tx); k in d.rows && d.rows == db.rows[k := d.rows[k]]
  {
    hide Diff, TouchItems, VersionsOf, UserOf;
    var b := BumpRevision(db, k, cols, tx);
    assert b.rows == db.rows[k := b.rows[k]];
    assert TombstoneOnUpdate(b, k, db.rows[k], tx).rows == b.rows;
  }

  ghost predicate OnlyRow(a: map<Key, Row>, b: map<Key, Row>, k: Key) {
    forall j :: j != k ==> (j in a <==> j in b) && (j in a && j in b ==> a[j] == b[j])
  }

  lemma PerformOnly(db: Db, user: UserId, c: Change, k: Key, protocol: nat, tx: Txid)
    ensures var r := Perform(db, user, k, Decide(db, user, c, k, protocol), tx); r.Done? ==> OnlyRow(db.rows, r.db.rows, k)
  {
    hide UpdateRow, DeleteItem, InsertRow, ReferencesOk, ColsAccepted, NewColumns, Required, IsLive, Decide;
    var d := Decide(db, user, c, k, protocol);
    DecideLive(db, user, c, k, protocol);
    match d
    case Raise =>
    case Answer(_) =>
    case Keep(_) =>
    case Write(fields, _, _) =>
      InsertOnly(db, k, NewColumns(k.t, fields, user), tx);
      if k in db.rows { UpdateOthers(db, k, db.rows[k].cols + fields, tx); }
    case Remove(recoverable) =>
      var kept := if recoverable.Some? then AddConflict(db, recoverable.value) else db;
      DeleteOnly(kept, k, tx);
      if k.t != Item { UpdateOthers(kept, k, db.rows[k].cols[DeletedAt := At(tx)], tx); }
  }

  lemma DecideLive(db: Db, user: UserId, c: Change, k: Key, protocol: nat)
    ensures var d := Decide(db, user, c, k, protocol);
            && (d.Remove? ==> Owned(db, k, user) && k !in db.tombstones && IsLive(db.rows[k]))
            && (d.Write? ==> k !in db.tombstones && (k in db.rows ==> Owned(db, k, user) && IsLive(db.rows[k])))
  {
    hide Decide;
  }

  lemma InsertOnly(db: Db, k: Key, cols: Cols, tx: Txid)
    ensures OnlyRow(db.rows, InsertRow(db, k, cols, tx).rows, k)
  {
  }

  lemma DeleteOnly(db: Db, k: Key, tx: Txid)
    requires k in db.rows
    ensures OnlyRow(db.rows, DeleteItem(db, k, tx).rows, k)
  {
    hide UserOf, Owned, IsLive;
    assert DeleteItem(db, k, tx).rows == db.rows - {k};
  }

  // ---- protected invoices ----

  /** The change is a protocol-2 edit or delete based on the record's current revision. */
  predicate BasedOnCurrent(db: Db, c: Change, protocol: nat, k: Key) {
    protocol == 2 && c.kind != Create && k in db.rows && c.base == Some(db.rows[k].revision)
  }

  lemma DecidedInvoice(db: Db, user: UserId, c: Change, k: Key, protocol: nat)
    requires k.t == Invoice && IsProtectedInvoice(db, k.id) && db.rows[k].revision > 0
    ensures var d := Decide(db, user, c, k, protocol); (d.Write? || d.Remove?) ==> BasedOnCurrent(db, c, protocol, k)
  {
    hide IsProtectedStatus, ChangedSince, ConflictOf, SawCurrentParent, HasOpenConflict, IsWritable;
  }

  /** No push changes a sent, overdue or paid invoice unless it is a protocol-2 change of that
    * invoice that carries its current revision.
    */
  lemma ProtectedInvoiceKept(db: Db, user: UserId, c: Change, protocol: nat, fault: Fault, tx: Txid, invoice: Id)
    requires Consistent(db) && IsProtectedInvoice(db, invoice)
    ensures var k, d := Key(Invoice, invoice), Push(db, user, c, protocol, fault, tx).db;
            k in d.rows && (d.rows[k] != db.rows[k] ==> c.id.Some? && KeyOf(c) == k && BasedOnCurrent(db, c, protocol, k))
  {
    hide Decide, Perform, Push, HistoriesOk, TombstonesOk, ItemsOk, IdsOk;
    var k, p := Key(Invoice, invoice), Push(db, user, c, protocol, fault, tx);
    PushEffect(db, user, c, protocol, fault, tx);
    if !SameTables(db, p.db) {
      var r := WithRecordedChange(db, user, c);
      PerformOnly(r, user, c, KeyOf(c), protocol, tx);
      if KeyOf(c) == k {
        RowIsOk(db, k);
        DecidedInvoice(r, user, c, k, protocol);
        PerformStays(r, user, c, k, protocol, tx);
      }
    }
  }

  /** A push that neither writes nor deletes leaves the rows; one on a client or invoice keeps the row. */
  lemma PerformStays(db: Db, user: UserId, c: Change, k: Key, protocol: nat, tx: Txid)
    requires k in db.rows
    ensures var d := Decide(db, user, c, k, protocol);
            var r := Perform(db, user, k, d, tx);
            r.Done? ==> (!d.Write? && !d.Remove? ==> r.db.rows == db.rows) && (k.t != Item ==> k in r.db.rows)
  {
    hide UpdateRow, DeleteItem, InsertRow, ReferencesOk, ColsAccepted, NewColumns, Required, IsLive, Decide;
    DecideLive(db, user, c, k, protocol);
    var d := Decide(db, user, c, k, protocol);
    if d.Write? && Owned(db, k, user) { UpdateOthers(db, k, db.rows[k].cols + d.fields, tx); }
    if d.Remove? && k.t != Item {
      var kept := if d.recoverable.Some? then AddConflict(db, d.recoverable.value) else db;
      UpdateOthers(kept, k, db.rows[k].cols[DeletedAt := At(tx)], tx);
    }
  }

  // ---- their items ----

  /** Every invoice of the user an item change touches is the protected one, seen as it is now. */
  ghost predicate SawOnly(db: Db, existing: Option<Row>, data: Cols, user: UserId, parent: Option<nat>, invoice: Id) {
    && ItemInvoices(db, existing, data, user) == {invoice}
    && Key(Invoice, invoice) in db.rows
    && parent == Some(db.rows[Key(Invoice, invoice)].revision)
  }

  lemma SawCurrentIsOnly(db: Db, existing: Option<Row>, data: Cols, user: UserId, parent: Option<nat>, invoice: Id)
    requires SawCurrentParent(db, existing, data, user, parent) && invoice in ItemInvoices(db, existing, data, user)
    ensures SawOnly(db, existing, data, user, parent, invoice)
  {
    var invoices := ItemInvoices(db, existing, data, user);
    hide ItemInvoices;
    assert |invoices - {invoice}| == 0;
    assert invoices == {invoice};
  }

  lemma DecidedItem(db: Db, user: UserId, c: Change, k: Key, protocol: nat, invoice: Id)
    requires k.t == Item && IsProtectedInvoice(db, invoice)
    requires invoice in ItemInvoices(db, FindOwned(db, k, user), WritableFields(k.t, c.data), user)
    ensures var d := Decide(db, user, c, k, protocol);
            (d.Write? || d.Remove?) ==>
              protocol == 2 && SawOnly(db, FindOwned(db, k, user), WritableFields(k.t, c.data), user, c.parent, invoice)
  {
    hide IsProtectedStatus, ChangedSince, ConflictOf, HasOpenConflict, IsWritable, ItemInvoices, SawCurrentParent, DecideEdit, FindOwned, WritableFields;
    var existing, data := FindOwned(db, k, user), WritableFields(k.t, c.data);
    assert IsProtected(db, k.t, existing, data, user);
    DecideLive(db, user, c, k, protocol);
    DeletedIsNot(db, k, user);
    if SawCurrentParent(db, existing, data, user, c.parent) {
      SawCurrentIsOnly(db, existing, data, user, c.parent, invoice);
    }
  }

  lemma DeletedIsNot(db: Db, k: Key, user: UserId)
    ensures k !in db.tombstones && (k in db.rows ==> IsLive(db.rows[k])) ==> !IsDeleted(db, k, FindOwned(db, k, user))
  {
    hide IsLive;
  }

  predicate InInvoice(rows: map<Key, Row>, j: Key, invoice: Id) {
    j in rows && IsItemOf(j, rows[j], invoice)
  }

  predicate SameRow(a: map<Key, Row>, b: map<Key, Row>, j: Key) {
    (j in a <==> j in b) && (j in a && j in b ==> a[j] == b[j])
  }

  /** The invoice an item is in, before and after a push performs a change of it, is among those
    * the change touches.
    */
  lemma TouchedInvoices(db: Db, user: UserId, c: Change, k: Key, protocol: nat, tx: Txid, invoice: Id)
    requires Consistent(db) && k.t == Item
    requires var d := Decide(db, user, c, k, protocol); d.Write? || d.Remove?
    requires Perform(db, user, k, Decide(db, user, c, k, protocol), tx).Done?
    ensures InInvoice(db.rows, k, invoice) ==> invoice in ItemInvoices(db, FindOwned(db, k, user), WritableFields(k.t, c.data), user)
    ensures InInvoice(Perform(db, user, k, Decide(db, user, c, k, protocol), tx).db.rows, k, invoice) ==>
              invoice in ItemInvoices(db, FindOwned(db, k, user), WritableFields(k.t, c.data), user)
  {
    hide Decide, HistoriesOk, TombstonesOk, ItemsOk, IdsOk, WriteRecord, DeleteRecord, IsWritable, IsLive;
    var d := Decide(db, user, c, k, protocol);
    DecideLive(db, user, c, k, protocol);
    if d.Write? {
      DecidedFields(db, user, c, k, protocol);
      WriteKeeps(db, k, d.fields, user, tx);
      WrittenInvoice(db, k, d.fields, user, tx);
      SentInvoice(c, k, d.fields);
      var w := WriteRecord(db, k, FindOwned(db, k, user), d.fields, user, tx).value;
      assert Perform(db, user, k, d, tx).db == w;
      if InvoiceId in d.fields {
        assert OwnedInvoiceRow(db, d.fields[InvoiceId].id, user);
        assert d.fields[InvoiceId].id in ItemInvoices(db, FindOwned(db, k, user), WritableFields(k.t, c.data), user);
      }
    } else {
      var kept := if d.recoverable.Some? then AddConflict(db, d.recoverable.value) else db;
      ItemGone(kept, k, tx);
    }
  }

  lemma ItemGone(db: Db, k: Key, tx: Txid)
    requires k in db.rows && k.t == Item
    ensures k !in DeleteRecord(db, k, tx).rows
  {
    hide UserOf;
  }

  /** Where a write leaves the item: the invoice written, or the one it had. */
  lemma WrittenInvoice(db: Db, k: Key, fields: Cols, user: UserId, tx: Txid)
    requires Consistent(db) && k.t == Item && WriteRecord(db, k, FindOwned(db, k, user), fields, user, tx).Some?
    requires k in db.rows ==> Owned(db, k, user) && IsLive(db.rows[k])
    requires Owned(db, k, user) ==> RowOk(k.t, db.rows[k].cols + fields)
    ensures var w := WriteRecord(db, k, FindOwned(db, k, user), fields, user, tx).value;
            && k in w.rows
            && (k !in db.rows ==> InvoiceId in fields)
            && Col(w.rows[k].cols, InvoiceId) == if InvoiceId in fields then fields[InvoiceId] else Col(db.rows[k].cols, InvoiceId)
  {
    hide HistoriesOk, TombstonesOk, ItemsOk, IdsOk, UpdateRow, RowOk, ReferencesOk, ColsAccepted, IsLive;
    if k in db.rows {
      RowIsOk(db, k);
      UpdateShape(db, k, db.rows[k].cols + fields, tx);
    } else {
      InsertedInvoice(fields, user);
    }
  }

  lemma InsertedInvoice(fields: Cols, user: UserId)
    requires Required(Item) <= fields.Keys
    ensures InvoiceId in fields && Col(NewColumns(Item, fields, user), InvoiceId) == fields[InvoiceId]
  {
  }

  lemma SentInvoice(c: Change, k: Key, fields: Cols)
    requires OnlyWritable(k.t, fields) && forall f :: f in fields ==> f in c.data && fields[f] == c.data[f]
    ensures InvoiceId in fields ==> InvoiceId in WritableFields(k.t, c.data) && WritableFields(k.t, c.data)[InvoiceId] == fields[InvoiceId]
  {
    hide IsWritable;
  }

  /** No push creates, edits, moves or deletes an item of a sent, overdue or paid invoice unless
    * it is a protocol-2 change of that item whose parent_revision is the invoice's current
    * revision, and the item is in no other invoice before or after.
    */
  lemma ProtectedItemKept(db: Db, user: UserId, c: Change, protocol: nat, fault: Fault, tx: Txid, invoice: Id, j: Key)
    requires Consistent(db) && IsProtectedInvoice(db, invoice) && j.t == Item
    requires var d := Push(db, user, c, protocol, fault, tx).db;
             && (InInvoice(db.rows, j, invoice) || InInvoice(d.rows, j, invoice))
             && !SameRow(db.rows, d.rows, j)
    ensures c.id.Some? && KeyOf(c) == j && protocol == 2
    ensures c.parent == Some(db.rows[Key(Invoice, invoice)].revision)
    ensures var d := Push(db, user, c, protocol, fault, tx).db;
            && (j in db.rows ==> IsItemOf(j, db.rows[j], invoice))
            && (j in d.rows ==> IsItemOf(j, d.rows[j], invoice))
  {
    hide Decide, Perform, Push, Consistent, SawOnly, ItemInvoices, WritableFields, FindOwned, IsProtectedInvoice;
    var p := Push(db, user, c, protocol, fault, tx);
    PushEffect(db, user, c, protocol, fault, tx);
    var r := WithRecordedChange(db, user, c);
    SameTablesConsistent(db, r);
    PerformOnly(r, user, c, KeyOf(c), protocol, tx);
    var d := Decide(r, user, c, j, protocol);
    if j in db.rows { PerformStays(r, user, c, j, protocol, tx); }
    NothingPerformed(r, user, c, j, protocol, tx);
    TouchedInvoices(r, user, c, j, protocol, tx, invoice);
    ProtectedSame(db, r, invoice);
    DecidedItem(r, user, c, j, protocol, invoice);
    SawOnlyFacts(r, user, c, j, invoice);
    ItemIn(db, j);
    ItemIn(p.db, j) by { PushKeeps(db, user, c, protocol, fault, tx); }
    if j in db.rows { TouchedInvoices(r, user, c, j, protocol, tx, Col(db.rows[j].cols, InvoiceId).id); }
    if j in p.db.rows { TouchedInvoices(r, user, c, j, protocol, tx, Col(p.db.rows[j].cols, InvoiceId).id); }
  }

  lemma NothingPerformed(db: Db, user: UserId, c: Change, k: Key, protocol: nat, tx: Txid)
    ensures var d := Decide(db, user, c, k, protocol);
            var r := Perform(db, user, k, d, tx);
            r.Done? && !d.Write? && !d.Remove? ==> r.db.rows == db.rows
  {
    hide Decide, WriteRecord, DeleteRecord;
    DecideLive(db, user, c, k, protocol);
  }

  lemma ProtectedSame(a: Db, b: Db, invoice: Id)
    requires SameTables(a, b)
    ensures IsProtectedInvoice(a, invoice) == IsProtectedInvoice(b, invoice)
  {
    hide IsProtectedStatus;
  }

  lemma SawOnlyFacts(db: Db, user: UserId, c: Change, k: Key, invoice: Id)
    ensures SawOnly(db, FindOwned(db, k, user), WritableFields(k.t, c.data), user, c.parent, invoice) ==>
              && ItemInvoices(db, FindOwned(db, k, user), WritableFields(k.t, c.data), user) == {invoice}
              && Key(Invoice, invoice) in db.rows && c.parent == Some(db.rows[Key(Invoice, invoice)].revision)
  {
    hide ItemInvoices, WritableFields, FindOwned;
  }

  lemma ItemIn(db: Db, j: Key)
    requires Consistent(db) && j.t == Item
    ensures j in db.rows ==> Col(db.rows[j].cols, InvoiceId).Ref? && InInvoice(db.rows, j, Col(db.rows[j].cols, InvoiceId).id)
  {
    hide HistoriesOk, TombstonesOk, IdsOk;
  }

  // ---- deleted records ----

  /** Known to have been deleted: tombstoned, or soft-deleted. */
  predicate IsKnownDeleted(db: Db, k: Key) {
    k in db.tombstones || (k in db.rows && !IsLive(db.rows[k]))
  }

  /** No push, of either protocol, makes a deleted record live again. */
  lemma PushKeepsDeleted(db: Db, user: UserId, c: Change, protocol: nat, fault: Fault, tx: Txid, k: Key)
    requires Consistent(db) && IsKnownDeleted(db, k)
    ensures var d := Push(db, user, c, protocol, fault, tx).db; SameRow(db.rows, d.rows, k) && !(k in d.rows && IsLive(d.rows[k]))
  {
    hide Decide, Perform, Push, HistoriesOk, ItemsOk, IdsOk, IsLive;
    PushEffect(db, user, c, protocol, fault, tx);
    var r := WithRecordedChange(db, user, c);
    if !SameTables(db, Push(db, user, c, protocol, fault, tx).db) {
      PerformOnly(r, user, c, KeyOf(c), protocol, tx);
      DecideLive(r, user, c, k, protocol);
      NothingPerformed(r, user, c, k, protocol, tx);
    }
  }
}
