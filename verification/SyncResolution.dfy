/** What a resolution keeps and what it leaves. */
module SyncResolution {
  import opened Basics
  import opened SyncModel
  import opened SyncPush
  import opened SyncConflicts
  import opened SyncInvariant
  import InvoiceTotals

  // ---- it keeps the tables consistent ----

  lemma EditableIsWritable(t: RecordType, fields: map<Field, Value>)
    ensures OnlyWritable(t, EditableFields(t, fields))
  {
    hide IsWritable;
  }

  lemma TotalColumnsOk(totals: InvoiceTotals.Totals)
    ensures OnlyWritable(Invoice, TotalColumns(totals)) && ColsAccepted(TotalColumns(totals))
  {
    assert TotalColumns(totals).Keys == {Subtotal, TaxTotal, DiscountTotal, Total};
  }

  lemma RecomputeKeeps(db: Db, invoice: Value, user: UserId, allowEmpty: bool, tx: Txid)
    requires Consistent(db)
    ensures Consistent(Recompute(db, invoice, user, allowEmpty, tx))
  {
    if ActiveInvoice(db, invoice, user) {
      hide HistoriesOk, TombstonesOk, ItemsOk, IdsOk, UpdateRow, RowOk, OnlyWritable, ColsAccepted, TotalColumns, LinesOf, InvoiceTotals.TotalsOf;
      var k := Key(Invoice, invoice.id);
      var totals := InvoiceTotals.TotalsOf(LinesOf(db.rows, invoice.id));
      RowIsOk(db, k);
      TotalColumnsOk(totals);
      ColumnsAfterWrite(Invoice, db.rows[k].cols, TotalColumns(totals));
      UpdateKeeps(db, k, db.rows[k].cols + TotalColumns(totals), tx);
    }
  }

  lemma LineTotalWritable(t: RecordType, data: Cols, v: Value)
    requires t == Item && OnlyWritable(t, data)
    ensures OnlyWritable(t, data[LineTotal := v])
  {
  }

  lemma ApplyKeeps(db: Db, conflict: ConflictRow, user: UserId, expected: nat, tx: Txid)
    requires Consistent(db) && ApplyDevice(db, conflict, user, expected, tx).Some?
    ensures Consistent(ApplyDevice(db, conflict, user, expected, tx).value)
  {
    hide Consistent, Recompute, WriteRecord, OnlyWritable, EditableFields, IsProtected, LineOf, InvoiceTotals.LineTotal;
    var k := conflict.key;
    var record := FindOwned(db, k, user).value;
    var sent := EditableFields(k.t, conflict.clientFields);
    EditableIsWritable(k.t, conflict.clientFields);
    var v := Num(InvoiceTotals.LineTotal(LineOf(record.cols + sent)));
    if k.t == Item { LineTotalWritable(k.t, sent, v); }
    var data := if k.t == Item then sent[LineTotal := v] else sent;
    WriteKeeps(db, k, data, user, tx);
    var written := WriteRecord(db, k, FindOwned(db, k, user), data, user, tx).value;
    var joined := InvoiceTouched(k, record.cols + data);
    RecomputeKeeps(written, joined, user, false, tx);
    RecomputeKeeps(Recompute(written, joined, user, false, tx), InvoiceTouched(k, record.cols), user, true, tx);
  }

  lemma RestoreKeeps(db: Db, conflict: ConflictRow, user: UserId, expected: nat, tx: Txid)
    requires Consistent(db) && RestoreRecord(db, conflict, user, expected, tx).Some?
    ensures Consistent(RestoreRecord(db, conflict, user, expected, tx).value)
  {
    var k := conflict.key;
    var found := FindOwned(db, k, user);
    var edits := if conflict.kind == EditAfterDelete then EditableFields(k.t, conflict.clientFields) else map[];
    assert OnlyWritable(k.t, edits) by { EditableIsWritable(k.t, conflict.clientFields); }
    hide Consistent, Recompute, WriteRecord, OnlyWritable, EditableFields, IsProtected, UpdateRow, RestoreItem, IsLive;
    if found.Some? {
      RowIsOk(db, k) by { assert HistoriesOk(db) by { ConsistentParts(db); } }
      var cols := found.value.cols[DeletedAt := Null];
      RestoredColumns(db, k);
      UpdateKeeps(db, k, cols, tx);
      var restored := UpdateRow(db, k, cols, tx);
      if edits != map[] {
        assert k in restored.rows by { UpdatedRows(db, restored, k, cols); }
        WriteKeeps(restored, k, edits, user, tx);
        RecomputeKeeps(WriteRecord(restored, k, FindOwned(restored, k, user), edits, user, tx).value, Ref(k.id), user, false, tx);
      } else {
        RecomputeKeeps(restored, Ref(k.id), user, false, tx);
      }
    } else {
      var state := EditableFields(Item, db.tombstones[k].lastState.value);
      EditableIsWritable(Item, db.tombstones[k].lastState.value);
      RestoreItemKeeps(db, k, state, edits, user, tx);
    }
  }

  lemma ConsistentParts(db: Db)
    requires Consistent(db)
    ensures HistoriesOk(db) && TombstonesOk(db) && ItemsOk(db) && IdsOk(db)
  {
  }

  lemma UpdatedRows(db: Db, d: Db, k: Key, cols: Cols)
    requires Updated(db, d, k, cols)
    ensures k in d.rows && d.rows[k].cols == cols
  {
  }

  lemma DeletedAtTakesNull()
    ensures FieldAccepts(DeletedAt, Null)
  {
  }

  /** A soft-deleted row keeps its columns when deletedAt is cleared. */
  lemma RestoredColumns(db: Db, k: Key)
    requires Consistent(db) && k in db.rows && !IsLive(db.rows[k])
    ensures k.t != Item && RowOk(k.t, db.rows[k].cols[DeletedAt := Null])
  {
    hide FieldAccepts, RowOk, IsLive, HistoriesOk, TombstonesOk, ItemsOk, IdsOk, IsWritable, Required, Defaults;
    DeletedAtTakesNull();
    RowIsOk(db, k);
    DeletedColumns(k.t, db.rows[k].cols, Null);
  }

  lemma RestoreItemKeeps(db: Db, k: Key, state: Cols, edits: Cols, user: UserId, tx: Txid)
    requires Consistent(db) && k.t == Item && OnlyWritable(Item, state) && OnlyWritable(Item, edits)
    requires RestoreItem(db, k, state, edits, user, tx).Some?
    ensures Consistent(RestoreItem(db, k, state, edits, user, tx).value)
  {
    var parent := Col(state, InvoiceId);
    var merged := (state + edits)[InvoiceId := parent];
    var v := Num(InvoiceTotals.LineTotal(LineOf(merged)));
    var data := merged[LineTotal := v];
    assert OnlyWritable(Item, data) by {
      assert InvoiceId in state;
      LineTotalWritable(Item, merged, v);
    }
    var untombed := DropTombstones(db, {k});
    UntombKeeps(db, k);
    hide Consistent, Recompute, WriteRecord, OnlyWritable, LineOf, InvoiceTotals.LineTotal, OwnedInvoiceRow, IsProtectedInvoice;
    NewRow(untombed, k, data, user, tx);
    WriteKeeps(untombed, k, data, user, tx);
    RecomputeKeeps(WriteRecord(untombed, k, None, data, user, tx).value, parent, user, false, tx);
  }

  lemma NewRow(db: Db, k: Key, data: Cols, user: UserId, tx: Txid)
    requires WriteRecord(db, k, None, data, user, tx).Some?
    ensures k !in db.rows && FindOwned(db, k, user) == None
  {
  }

  lemma UntombKeeps(db: Db, k: Key)
    requires Consistent(db)
    ensures Consistent(DropTombstones(db, {k}))
  {
    FrameKeeps(db, DropTombstones(db, {k}));
  }

  lemma TouchKeeps(db: Db, k: Key, tx: Txid)
    requires Consistent(db)
    ensures Consistent(TouchForDelivery(db, k, tx))
    ensures TouchForDelivery(db, k, tx).nextConflict == db.nextConflict
  {
    hide HistoriesOk, TombstonesOk, ItemsOk;
    if k in db.rows {
      FrameKeeps(db, TouchForDelivery(db, k, tx));
    }
  }

  lemma CloseKeeps(db: Db, id: Id, row: ConflictRow)
    requires Consistent(db) && id < db.nextConflict
    ensures Consistent(db.(conflicts := db.conflicts[id := row]))
  {
    hide HistoriesOk, TombstonesOk, ItemsOk;
    FrameKeeps(db, db.(conflicts := db.conflicts[id := row]));
  }

  lemma ActKeeps(db: Db, conflict: ConflictRow, user: UserId, action: Action, expected: Option<nat>, tx: Txid)
    requires Consistent(db) && Act(db, conflict, user, action, expected, tx).Some?
    ensures Consistent(Act(db, conflict, user, action, expected, tx).value)
  {
    hide Consistent, ApplyDevice, RestoreRecord;
    if action == ApplyClient {
      ApplyKeeps(db, conflict, user, expected.value, tx);
    } else if action == Restore {
      RestoreKeeps(db, conflict, user, expected.value, tx);
    }
  }

  // ---- it files no other conflict and no device change ----

  predicate SameBooks(a: Db, b: Db) {
    a.conflicts == b.conflicts && a.nextConflict == b.nextConflict && a.changes == b.changes && b.forgotten <= a.forgotten
  }

  lemma UpdateFrame(db: Db, k: Key, cols: Cols, tx: Txid)
    requires k in db.rows
    ensures SameBooks(db, UpdateRow(db, k, cols, tx))
  {
    TombstoneShape(BumpRevision(db, k, cols, tx), k, db.rows[k], tx);
    hide TombstoneOnUpdate, Diff, VersionsOf;
  }

  lemma RecomputeFrame(db: Db, invoice: Value, user: UserId, allowEmpty: bool, tx: Txid)
    ensures SameBooks(db, Recompute(db, invoice, user, allowEmpty, tx))
  {
    hide UpdateRow, LinesOf, InvoiceTotals.TotalsOf, TotalColumns;
    if ActiveInvoice(db, invoice, user) {
      var k := Key(Invoice, invoice.id);
      UpdateFrame(db, k, db.rows[k].cols + TotalColumns(InvoiceTotals.TotalsOf(LinesOf(db.rows, invoice.id))), tx);
    }
  }

  lemma WriteFrame(db: Db, k: Key, existing: Option<Row>, data: Cols, user: UserId, tx: Txid)
    requires existing.Some? ==> k in db.rows
    ensures var w := WriteRecord(db, k, existing, data, user, tx); w.Some? ==> SameBooks(db, w.value)
  {
    hide UpdateRow, NewColumns, ReferencesOk, ColsAccepted, Required;
    if existing.Some? {
      UpdateFrame(db, k, db.rows[k].cols + data, tx);
    }
  }

  lemma ActFrame(db: Db, conflict: ConflictRow, user: UserId, action: Action, expected: Option<nat>, tx: Txid)
    requires Act(db, conflict, user, action, expected, tx).Some?
    ensures SameBooks(db, Act(db, conflict, user, action, expected, tx).value)
  {
    hide WriteRecord, Recompute, UpdateRow, IsProtected, EditableFields, LineOf, InvoiceTotals.LineTotal, IsLive, IsProtectedInvoice;
    var k := conflict.key;
    var found := FindOwned(db, k, user);
    if action == ApplyClient {
      var sent := EditableFields(k.t, conflict.clientFields);
      var record := found.value;
      var data := if k.t == Item then sent[LineTotal := Num(InvoiceTotals.LineTotal(LineOf(record.cols + sent)))] else sent;
      WriteFrame(db, k, found, data, user, tx);
      var written := WriteRecord(db, k, found, data, user, tx).value;
      var joined := InvoiceTouched(k, record.cols + data);
      RecomputeFrame(written, joined, user, false, tx);
      RecomputeFrame(Recompute(written, joined, user, false, tx), InvoiceTouched(k, record.cols), user, true, tx);
    } else if action == Restore {
      RestoreFrame(db, conflict, user, expected.value, tx);
    }
  }

  lemma RestoreFrame(db: Db, conflict: ConflictRow, user: UserId, expected: nat, tx: Txid)
    requires RestoreRecord(db, conflict, user, expected, tx).Some?
    ensures SameBooks(db, RestoreRecord(db, conflict, user, expected, tx).value)
  {
    hide WriteRecord, Recompute, UpdateRow, IsProtected, EditableFields, LineOf, InvoiceTotals.LineTotal, IsLive, IsProtectedInvoice;
    var k := conflict.key;
    var found := FindOwned(db, k, user);
    var edits := if conflict.kind == EditAfterDelete then EditableFields(k.t, conflict.clientFields) else map[];
    if found.Some? {
      var restored := UpdateRow(db, k, found.value.cols[DeletedAt := Null], tx);
      UpdateFrame(db, k, found.value.cols[DeletedAt := Null], tx);
      if edits == map[] {
        RecomputeFrame(restored, Ref(k.id), user, false, tx);
      } else {
        WriteFrame(restored, k, FindOwned(restored, k, user), edits, user, tx);
        RecomputeFrame(WriteRecord(restored, k, FindOwned(restored, k, user), edits, user, tx).value, Ref(k.id), user, false, tx);
      }
    } else {
      var state := EditableFields(Item, db.tombstones[k].lastState.value);
      var parent := Col(state, InvoiceId);
      var merged := (state + edits)[InvoiceId := parent];
      var data := merged[LineTotal := Num(InvoiceTotals.LineTotal(LineOf(merged)))];
      var untombed := DropTombstones(db, {k});
      WriteFrame(untombed, k, None, data, user, tx);
      InsertRemembers(untombed, k, data, user, tx);
      RecomputeFrame(WriteRecord(untombed, k, None, data, user, tx).value, parent, user, false, tx);
    }
  }

  lemma InsertRemembers(db: Db, k: Key, data: Cols, user: UserId, tx: Txid)
    ensures var w := WriteRecord(db, k, None, data, user, tx); w.Some? ==> k !in w.value.forgotten
  {
    hide NewColumns, ReferencesOk, ColsAccepted, Required;
  }

  lemma ResolveKeeps(db: Db, user: UserId, id: Id, action: Action, expected: Option<nat>, tx: Txid)
    requires Consistent(db) && Resolve(db, user, id, action, expected, tx).Some?
    ensures Consistent(Resolve(db, user, id, action, expected, tx).value)
  {
    hide HistoriesOk, TombstonesOk, ItemsOk, Act, TouchForDelivery;
    var conflict := db.conflicts[id];
    ActKeeps(db, conflict, user, action, expected, tx);
    ActFrame(db, conflict, user, action, expected, tx);
    var acted := Act(db, conflict, user, action, expected, tx).value;
    TouchKeeps(acted, conflict.key, tx);
    CloseKeeps(TouchForDelivery(acted, conflict.key, tx), id,
               conflict.(status := if action == Dismiss then Dismissed else SyncModel.Resolved));
  }

  /** A conflict leaves `open` in one resolution and is then closed: resolving it again, by any
    * action, is refused.
    */
  lemma ResolvedOnce(db: Db, user: UserId, id: Id, action: Action, expected: Option<nat>, tx: Txid)
    requires Resolve(db, user, id, action, expected, tx).Some?
    ensures var d := Resolve(db, user, id, action, expected, tx).value;
            && db.conflicts[id].status == Open
            && d.conflicts == db.conflicts[id := d.conflicts[id]] && d.conflicts[id].status != Open
            && d.changes == db.changes && d.nextConflict == db.nextConflict
            && forall u, a, e, t :: Resolve(d, u, id, a, e, t) == None
    ensures action != Dismiss ==>
              && expected.Some?
              && (db.conflicts[id].key in db.rows ==> db.rows[db.conflicts[id].key].revision == expected.value)
              && (db.conflicts[id].key !in db.rows ==> db.conflicts[id].key in db.tombstones
                                                       && db.tombstones[db.conflicts[id].key].revision == expected.value)
  {
    ActFrame(db, db.conflicts[id], user, action, expected, tx);
    if action != Dismiss { ActsAtReviewedRevision(db, db.conflicts[id], user, action, expected, tx); }
    hide Act;
  }

  /** Applying and restoring write only at the revision the owner reviewed. */
  lemma ActsAtReviewedRevision(db: Db, conflict: ConflictRow, user: UserId, action: Action, expected: Option<nat>, tx: Txid)
    requires action != Dismiss && Act(db, conflict, user, action, expected, tx).Some?
    ensures expected.Some?
    ensures conflict.key in db.rows ==> db.rows[conflict.key].revision == expected.value
    ensures conflict.key !in db.rows ==> conflict.key in db.tombstones && db.tombstones[conflict.key].revision == expected.value
  {
    hide Recompute, UpdateRow, IsProtected, EditableFields, LineOf, InvoiceTotals.LineTotal, IsLive, ReferencesOk, ColsAccepted;
    hide Required, NewColumns, IsProtectedInvoice;
  }
}
