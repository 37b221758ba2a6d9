/** A deletion of a version the device had not seen can be undone: what it removed comes back. */
module SyncRecovery {
  import opened Basics
  import opened SyncModel
  import opened SyncPush
  import opened SyncConflicts
  import opened SyncInvariant
  import opened SyncResolution
  import opened SyncTotals
  import InvoiceTotals

  /** A protocol 2 deletion based on an older revision, when it is applied, leaves an open conflict of
    * its owner on the record, which allows restoring it.
    */
  lemma StaleDeleteIsRecoverable(db: Db, user: UserId, c: Change, k: Key, tx: Txid)
    requires c.kind == Delete && Owned(db, k, user) && !IsDeleted(db, k, Some(db.rows[k]))
    requires c.base.Some? && c.base.value < db.rows[k].revision
    requires var r := Perform(db, user, k, Decide(db, user, c, k, 2), tx); r.Done? && r.outcome.status == Applied
    ensures var r := Perform(db, user, k, Decide(db, user, c, k, 2), tx); var id := r.outcome.conflictId;
            && id == Some(db.nextConflict)
            && id.value in r.db.conflicts
            && var conflict := r.db.conflicts[id.value];
            && conflict.key == k && conflict.user == user && conflict.status == Open
            && conflict.kind == DeleteAfterEdit && Allows(conflict.kind, Restore)
            && conflict.serverRevision == Some(db.rows[k].revision) && conflict.base == c.base
            && conflict.clientFields == map[] && conflict.conflicting == {}
            && r.db == DeleteRecord(AddConflict(db, conflict), k, tx)
  {
    NothingSent(k.t);
    hide DeleteItem, IsProtected, SawCurrentParent, ConflictFields, WritableFields, Diff, IsDeleted;
    DeletionShape(db, user, c, k);
    var d := Decide(db, user, c, k, 2);
    var kept := AddConflict(db, d.recoverable.value);
    DeleteKeepsConflicts(kept, k, tx);
  }

  lemma NothingSent(t: RecordType)
    ensures ConflictFields(t, map[]) == map[]
  {
  }

  lemma DeletionShape(db: Db, user: UserId, c: Change, k: Key)
    requires c.kind == Delete && Owned(db, k, user) && !IsDeleted(db, k, Some(db.rows[k]))
    requires c.base.Some? && c.base.value < db.rows[k].revision
    ensures var d := Decide(db, user, c, k, 2);
            d.Keep? || d == Remove(Some(ConflictOf(user, c, k, DeleteAfterEdit, Some(db.rows[k].revision), {})))
  {
    hide Owned, IsProtected, SawCurrentParent, ConflictFields, WritableFields, ConflictOf;
  }

  lemma DeleteKeepsConflicts(db: Db, k: Key, tx: Txid)
    requires k in db.rows
    ensures DeleteRecord(db, k, tx).conflicts == db.conflicts
  {
    if k.t == Item {
      hide UserOf;
    } else {
      UpdateKeepsConflicts(db, k, db.rows[k].cols[DeletedAt := At(tx)], tx);
      hide UpdateRow;
    }
  }

  lemma UpdateKeepsConflicts(db: Db, k: Key, cols: Cols, tx: Txid)
    requires k in db.rows
    ensures UpdateRow(db, k, cols, tx).conflicts == db.conflicts
  {
    hide TombstoneOnUpdate, Diff;
    TombstoneShape(BumpRevision(db, k, cols, tx), k, db.rows[k], tx);
  }

  // ---- a line ----

  lemma LineColumns(cols: Cols)
    requires RowOk(Item, cols)
    ensures EditableFields(Item, cols) == cols - {LineTotal}
    ensures Required(Item) + Defaults(Item).Keys == cols.Keys
  {
    hide ColsAccepted;
    assert forall f :: f in cols <==> IsWritable(Item, f);
  }

  /** The state kept with the tombstone, written back: the stored columns, and a fresh line total. */
  lemma LineData(cols: Cols, v: Value, user: UserId)
    requires RowOk(Item, cols)
    ensures var data := (EditableFields(Item, cols) + map[])[InvoiceId := Col(cols, InvoiceId)];
            && LineOf(data) == LineOf(cols)
            && data[LineTotal := v] == cols[LineTotal := v]
            && Required(Item) <= data[LineTotal := v].Keys
            && NewColumns(Item, cols[LineTotal := v], user) == cols[LineTotal := v]
  {
    LineColumns(cols);
    hide RowOk, EditableFields;
    var state := cols - {LineTotal};
    assert InvoiceId in cols && LineTotal in cols;
    assert (state + map[])[InvoiceId := Col(cols, InvoiceId)] == state;
    assert state[LineTotal := v] == cols[LineTotal := v];
  }

  /** Deleting a line and restoring it: it can be restored exactly while its invoice is active and not
    * sent, overdue or paid, and then it is the line that was deleted, with its total recomputed.
    */
  lemma DeletedLineComesBack(db: Db, k: Key, conflict: ConflictRow, user: UserId, deleting: Txid, restoring: Txid)
    requires Consistent(db) && k.t == Item && Owned(db, k, user) && k !in db.tombstones
    requires conflict.key == k && conflict.kind == DeleteAfterEdit
    ensures var row, d := db.rows[k], DeleteItem(db, k, deleting);
            var restored := RestoreRecord(d, conflict, user, row.revision, restoring);
            && (restored.Some? <==> ActiveInvoice(db, Col(row.cols, InvoiceId), user) && !IsProtectedInvoice(db, Col(row.cols, InvoiceId).id))
            && (restored.Some? ==>
                  k in restored.value.rows && k !in restored.value.tombstones
                  && restored.value.rows[k].cols == row.cols[LineTotal := Num(InvoiceTotals.LineTotal(LineOf(row.cols)))])
  {
    hide HistoriesOk, TombstonesOk, ItemsOk, IdsOk, RestoreItem, RowOk, EditableFields, ActiveInvoice, IsProtectedInvoice, LineOf, InvoiceTotals.LineTotal;
    var row, d := db.rows[k], DeleteItem(db, k, deleting);
    RowIsOk(db, k);
    DeleteItemKeeps(db, k, deleting);
    LastStateKept(db, k, user, deleting);
    RestoredState(db, d, k, user, restoring);
    assert RestoreRecord(d, conflict, user, row.revision, restoring) == RestoreItem(d, k, EditableFields(Item, row.cols), map[], user, restoring);
  }

  lemma LastStateKept(db: Db, k: Key, user: UserId, tx: Txid)
    requires k.t == Item && Owned(db, k, user) && k !in db.tombstones
    ensures var d := DeleteItem(db, k, tx);
            && d.rows == db.rows - {k}
            && k in d.tombstones && d.tombstones == db.tombstones[k := d.tombstones[k]]
            && d.tombstones[k].user == user && d.tombstones[k].lastState == Some(db.rows[k].cols)
            && d.tombstones[k].revision == db.rows[k].revision
  {
  }

  lemma RestoredState(db: Db, d: Db, k: Key, user: UserId, tx: Txid)
    requires Consistent(d) && k.t == Item && k in db.rows && RowOk(Item, db.rows[k].cols)
    requires d.rows == db.rows - {k} && k in d.tombstones && Col(db.rows[k].cols, InvoiceId).Ref?
    ensures var cols := db.rows[k].cols;
            var r := RestoreItem(d, k, EditableFields(Item, cols), map[], user, tx);
            && (r.Some? <==> ActiveInvoice(db, Col(cols, InvoiceId), user) && !IsProtectedInvoice(db, Col(cols, InvoiceId).id))
            && (r.Some? ==> k in r.value.rows && k !in r.value.tombstones
                            && r.value.rows[k].cols == cols[LineTotal := Num(InvoiceTotals.LineTotal(LineOf(cols)))])
  {
    hide Recompute, RowOk, ColsAccepted, EditableFields, IsLive, LineOf, InvoiceTotals.LineTotal, Consistent, Required, NewColumns;
    var cols := db.rows[k].cols;
    var v := Num(InvoiceTotals.LineTotal(LineOf(cols)));
    var parent := Col(cols, InvoiceId);
    LineData(cols, v, user);
    LineColumns(cols);
    LineAccepted(cols, v);
    var u := DropTombstones(d, {k});
    var data := cols[LineTotal := v];
    assert Col(cols - {LineTotal}, InvoiceId) == parent;
    SameInvoice(db, u, k, parent, user);
    if ActiveInvoice(db, parent, user) && !IsProtectedInvoice(db, parent.id) {
      UntombKeeps(d, k);
      var w := WriteRecord(u, k, None, data, user, tx);
      assert w == Some(InsertRow(u, k, data, tx));
      InsertedKeeps(u, k, data, user, tx);
      RecomputeOthers(w.value, parent, user, false, tx);
      RecomputeTombstones(w.value, parent, user, tx);
    }
  }

  lemma LineAccepted(cols: Cols, v: Value)
    requires RowOk(Item, cols) && v.Num?
    ensures ColsAccepted(cols[LineTotal := v]) && RowOk(Item, cols[LineTotal := v])
  {
    assert IsColumn(Item, LineTotal);
  }

  lemma SameInvoice(db: Db, u: Db, k: Key, parent: Value, user: UserId)
    requires k.t == Item && u.rows == db.rows - {k}
    ensures ActiveInvoice(u, parent, user) == ActiveInvoice(db, parent, user)
    ensures parent.Ref? ==> IsProtectedInvoice(u, parent.id) == IsProtectedInvoice(db, parent.id)
    ensures parent.Ref? ==> OwnedInvoiceRow(u, parent.id, user) == OwnedInvoiceRow(db, parent.id, user)
  {
  }

  lemma InsertedKeeps(u: Db, k: Key, data: Cols, user: UserId, tx: Txid)
    requires Consistent(u) && k.t == Item && k !in u.rows && k !in u.tombstones && WriteRecord(u, k, None, data, user, tx).Some?
    requires WriteRecord(u, k, None, data, user, tx) == Some(InsertRow(u, k, data, tx)) && RowOk(Item, data)
    ensures Consistent(InsertRow(u, k, data, tx))
  {
    hide HistoriesOk, TombstonesOk, ItemsOk, IdsOk, RowOk, ColsAccepted, Required;
    NoDeletedAt(data);
    InsertKeeps(u, k, data, tx);
  }

  lemma NoDeletedAt(cols: Cols)
    requires RowOk(Item, cols)
    ensures Col(cols, DeletedAt) == Null
  {
    hide ColsAccepted;
    assert !IsColumn(Item, DeletedAt);
  }

  // ---- a client or an invoice ----

  /** Deleting a client or an invoice and restoring it: an invoice can be restored exactly while its
    * client is active, a client always, and every column but an invoice's amounts is as it was.
    */
  lemma DeletedRecordComesBack(db: Db, k: Key, conflict: ConflictRow, user: UserId, deleting: Txid, restoring: Txid, f: Field)
    requires Consistent(db) && k.t != Item && Owned(db, k, user) && IsLive(db.rows[k])
    requires conflict.key == k && conflict.kind == DeleteAfterEdit && f !in Derived(Invoice)
    ensures var d := DeleteRecord(db, k, deleting);
            && k in d.rows
            && var restored := RestoreRecord(d, conflict, user, d.rows[k].revision, restoring);
            && (restored.Some? <==> k.t == Client || ActiveClient(db, Col(db.rows[k].cols, ClientId), user))
            && (restored.Some? ==>
                  k in restored.value.rows && IsLive(restored.value.rows[k])
                  && Col(restored.value.rows[k].cols, f) == Col(db.rows[k].cols, f))
  {
    hide HistoriesOk, TombstonesOk, ItemsOk, IdsOk, UpdateRow, RestoreRecord, RowOk, ActiveClient, Derived;
    var d := DeleteRecord(db, k, deleting);
    DeletedColumnsAre(db, k, user, deleting);
    RestoreAllowed(db, d, k, conflict, user, restoring);
    if RestoreRecord(d, conflict, user, d.rows[k].revision, restoring).Some? {
      RestoreColumns(d, conflict, user, d.rows[k].revision, restoring, f);
      ClearedAgain(db.rows[k].cols, At(deleting), f);
    }
  }

  lemma ClearedAgain(cols: Cols, v: Value, f: Field)
    requires Col(cols, DeletedAt) == Null
    ensures Col(cols[DeletedAt := v][DeletedAt := Null] + map[], f) == Col(cols, f)
  {
  }

  lemma DeletedColumnsAre(db: Db, k: Key, user: UserId, tx: Txid)
    requires Consistent(db) && k.t != Item && Owned(db, k, user) && IsLive(db.rows[k])
    ensures var d := DeleteRecord(db, k, tx);
            && Consistent(d) && d.rows.Keys == db.rows.Keys && d.rows[k].cols == db.rows[k].cols[DeletedAt := At(tx)]
            && Owned(d, k, user) && !IsLive(d.rows[k])
            && forall j :: j in db.rows && j != k ==> d.rows[j].cols == db.rows[j].cols
  {
    hide HistoriesOk, TombstonesOk, ItemsOk, IdsOk, UpdateRow, RowOk;
    RowIsOk(db, k);
    DeletedColumns(k.t, db.rows[k].cols, At(tx));
    UpdateKeeps(db, k, db.rows[k].cols[DeletedAt := At(tx)], tx);
  }

  lemma RestoreAllowed(db: Db, d: Db, k: Key, conflict: ConflictRow, user: UserId, tx: Txid)
    requires k.t != Item && k in db.rows && d.rows.Keys == db.rows.Keys && Owned(d, k, user) && !IsLive(d.rows[k])
    requires Col(d.rows[k].cols, ClientId) == Col(db.rows[k].cols, ClientId)
    requires forall j :: j in db.rows && j != k ==> d.rows[j].cols == db.rows[j].cols
    requires conflict.key == k && conflict.kind == DeleteAfterEdit
    ensures RestoreRecord(d, conflict, user, d.rows[k].revision, tx).Some?
            <==> k.t == Client || ActiveClient(db, Col(db.rows[k].cols, ClientId), user)
  {
    hide UpdateRow, Recompute, WriteRecord, IsProtected, EditableFields;
  }
}
