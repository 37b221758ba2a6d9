/** Every step of the sync system leaves its transaction id on what it changes for a device, and
  * every record with its owner.
  */
module DeliverySteps {
  import opened Basics
  import opened SyncModel
  import opened SyncPush
  import opened SyncConflicts
  import opened SyncInvariant
  import opened SyncResolution
  import opened SyncProtection
  import opened SyncRuns
  import opened SyncTotals
  import opened Delivery
  import opened DeliveryStamps
  import opened DeliveryBelongs
  import InvoiceTotals

  // ---- every write of the system ----

  lemma KeepsOwner(t: RecordType, cols: Cols, data: Cols)
    requires OnlyWritable(t, data)
    ensures Col(cols + data, Owner) == Col(cols, Owner)
  {
    NotServerColumn(t, data);
  }

  lemma WriteFollows(db: Db, k: Key, data: Cols, user: UserId, tx: Txid)
    requires Consistent(db) && OnlyWritable(k.t, data) && (k !in db.rows ==> k !in db.tombstones)
    requires WriteRecord(db, k, FindOwned(db, k, user), data, user, tx).Some?
    ensures Follows(db, WriteRecord(db, k, FindOwned(db, k, user), data, user, tx).value, tx)
  {
    hide HistoriesOk, TombstonesOk, ItemsOk, IdsOk, UpdateRow, InsertRow, NewColumns, ReferencesOk, ColsAccepted, Required, RowOk, OnlyWritable, Follows;
    WriteKeeps(db, k, data, user, tx);
    if Owned(db, k, user) {
      RowIsOk(db, k);
      KeepsOwner(k.t, db.rows[k].cols, data);
      StaysWithOwner(db, k, data, user);
      UpdateFollows(db, k, db.rows[k].cols + data, tx);
    } else {
      NewLineJoins(db, k, data, user, tx);
      InsertFollows(db, k, NewColumns(k.t, data, user), tx);
    }
  }

  /** An item is written, and moved, within its owner's invoices only. */
  lemma StaysWithOwner(db: Db, k: Key, data: Cols, user: UserId)
    requires Consistent(db) && Owned(db, k, user) && (k.t == Item && InvoiceId in data ==> ActiveInvoice(db, data[InvoiceId], user))
    ensures SameOwner(db, k, db.rows[k].cols + data)
  {
    hide Consistent, Belongs;
    if k.t == Item && InvoiceId in data { ActiveIsSomebodys(db, data[InvoiceId], user); }
    hide IsLive, IsSomebodys;
  }

  lemma NewLineJoins(db: Db, k: Key, data: Cols, user: UserId, tx: Txid)
    requires Consistent(db) && WriteRecord(db, k, None, data, user, tx).Some?
    requires k.t == Item && InvoiceId in data ==> ActiveInvoice(db, data[InvoiceId], user)
    ensures k.t == Item ==> InvoiceId in data && IsSomebodys(db, Col(NewColumns(k.t, data, user), InvoiceId))
  {
    hide Consistent, ActiveInvoice, IsSomebodys;
    if k.t == Item {
      NewLineInvoice(data, user);
      ActiveIsSomebodys(db, data[InvoiceId], user);
    }
  }

  lemma DeleteFollows(db: Db, k: Key, tx: Txid)
    requires Consistent(db) && k in db.rows
    ensures Follows(db, DeleteRecord(db, k, tx), tx)
  {
    hide HistoriesOk, TombstonesOk, ItemsOk, IdsOk, UpdateRow, DeleteItem, RowOk, Follows;
    if k.t == Item {
      DeleteItemFollows(db, k, tx);
    } else {
      RowIsOk(db, k);
      DeletedColumns(k.t, db.rows[k].cols, At(tx));
      UpdateFollows(db, k, db.rows[k].cols[DeletedAt := At(tx)], tx);
    }
  }

  lemma PushFollows(db: Db, user: UserId, c: Change, protocol: nat, fault: Fault, tx: Txid)
    requires Consistent(db)
    ensures Follows(db, Push(db, user, c, protocol, fault, tx).db, tx)
  {
    hide Push, Consistent, Decide, WriteRecord, DeleteRecord, Follows;
    PushEffect(db, user, c, protocol, fault, tx);
    var p, r := Push(db, user, c, protocol, fault, tx), WithRecordedChange(db, user, c);
    if SameTables(db, p.db) {
      FollowsSame(db, p.db, tx);
    } else {
      var k := KeyOf(c);
      var d := Decide(r, user, c, k, protocol);
      SameTablesConsistent(db, r);
      DecidedFields(r, user, c, k, protocol);
      DecideLive(r, user, c, k, protocol);
      var w := Perform(r, user, k, d, tx).db;
      assert Follows(r, w, tx) by { PerformFollows(r, user, k, d, tx); }
      FollowsSame(db, r, tx);
      FollowsSame(w, p.db, tx);
      FollowsTransitive(db, r, w, tx);
      FollowsTransitive(db, w, p.db, tx);
    }
  }

  lemma PerformFollows(db: Db, user: UserId, k: Key, d: Decision, tx: Txid)
    requires Consistent(db) && Perform.requires(db, user, k, d, tx) && Perform(db, user, k, d, tx).Done?
    requires d.Write? ==> OnlyWritable(k.t, d.fields) && (k !in db.rows ==> k !in db.tombstones)
    ensures Follows(db, Perform(db, user, k, d, tx).db, tx)
  {
    hide WriteRecord, DeleteRecord, HistoriesOk, TombstonesOk, ItemsOk, IdsOk, Follows, OnlyWritable;
    match d
    case Answer(_) => FollowsSame(db, db, tx);
    case Keep(conflict) => FollowsSame(db, AddConflict(db, conflict), tx);
    case Write(fields, _, _) => WriteFollows(db, k, fields, user, tx);
    case Remove(recoverable) =>
      if recoverable.Some? {
        var kept := AddConflict(db, recoverable.value);
        AddConflictKeeps(db, recoverable.value);
        FollowsSame(db, kept, tx);
        DeleteFollows(kept, k, tx);
        FollowsTransitive(db, kept, DeleteRecord(kept, k, tx), tx);
      } else {
        DeleteFollows(db, k, tx);
      }
  }

  lemma RecomputeFollows(db: Db, invoice: Value, user: UserId, allowEmpty: bool, tx: Txid)
    requires Consistent(db)
    ensures Follows(db, Recompute(db, invoice, user, allowEmpty, tx), tx)
  {
    hide HistoriesOk, TombstonesOk, ItemsOk, IdsOk, UpdateRow, RowOk, OnlyWritable, ColsAccepted, TotalColumns, LinesOf, InvoiceTotals.TotalsOf, Follows;
    FollowsSame(db, db, tx);
    if ActiveInvoice(db, invoice, user) {
      var k := Key(Invoice, invoice.id);
      var totals := InvoiceTotals.TotalsOf(LinesOf(db.rows, invoice.id));
      RowIsOk(db, k);
      TotalColumnsOk(totals);
      ColumnsAfterWrite(Invoice, db.rows[k].cols, TotalColumns(totals));
      KeepsOwner(Invoice, db.rows[k].cols, TotalColumns(totals));
      UpdateFollows(db, k, db.rows[k].cols + TotalColumns(totals), tx);
    }
  }

  lemma WriteThenRecompute(db: Db, w: Db, invoice: Value, user: UserId, allowEmpty: bool, tx: Txid)
    requires Consistent(w) && Follows(db, w, tx)
    ensures Follows(db, Recompute(w, invoice, user, allowEmpty, tx), tx) && Consistent(Recompute(w, invoice, user, allowEmpty, tx))
  {
    hide Consistent, Follows, Recompute;
    RecomputeFollows(w, invoice, user, allowEmpty, tx);
    RecomputeKeeps(w, invoice, user, allowEmpty, tx);
    FollowsTransitive(db, w, Recompute(w, invoice, user, allowEmpty, tx), tx);
  }

  lemma ApplyFollows(db: Db, conflict: ConflictRow, user: UserId, expected: nat, tx: Txid)
    requires Consistent(db) && ApplyDevice(db, conflict, user, expected, tx).Some?
    ensures Follows(db, ApplyDevice(db, conflict, user, expected, tx).value, tx)
  {
    hide Consistent, Recompute, WriteRecord, OnlyWritable, EditableFields, IsProtected, LineOf, InvoiceTotals.LineTotal, Follows;
    var k := conflict.key;
    var record := FindOwned(db, k, user).value;
    var sent := EditableFields(k.t, conflict.clientFields);
    EditableIsWritable(k.t, conflict.clientFields);
    var v := Num(InvoiceTotals.LineTotal(LineOf(record.cols + sent)));
    if k.t == Item { LineTotalWritable(k.t, sent, v); }
    var data := if k.t == Item then sent[LineTotal := v] else sent;
    WriteKeeps(db, k, data, user, tx);
    WriteFollows(db, k, data, user, tx);
    var w := WriteRecord(db, k, FindOwned(db, k, user), data, user, tx).value;
    var joined := InvoiceTouched(k, record.cols + data);
    WriteThenRecompute(db, w, joined, user, false, tx);
    WriteThenRecompute(db, Recompute(w, joined, user, false, tx), InvoiceTouched(k, record.cols), user, true, tx);
  }

  lemma RestoreFollows(db: Db, conflict: ConflictRow, user: UserId, expected: nat, tx: Txid)
    requires Consistent(db) && RestoreRecord(db, conflict, user, expected, tx).Some?
    ensures Follows(db, RestoreRecord(db, conflict, user, expected, tx).value, tx)
  {
    var k := conflict.key;
    var found := FindOwned(db, k, user);
    var edits := if conflict.kind == EditAfterDelete then EditableFields(k.t, conflict.clientFields) else map[];
    assert OnlyWritable(k.t, edits) by { EditableIsWritable(k.t, conflict.clientFields); }
    hide Consistent, Recompute, WriteRecord, OnlyWritable, EditableFields, IsProtected, UpdateRow, RestoreItem, IsLive, Follows, RowOk;
    if found.Some? {
      RestoreSoftFollows(db, k, edits, user, tx);
    } else {
      var state := EditableFields(Item, db.tombstones[k].lastState.value);
      EditableIsWritable(Item, db.tombstones[k].lastState.value);
      RestoreItemFollows(db, k, state, edits, user, tx);
    }
  }

  /** Clearing deletedAt, and then the edits, and then the totals of an invoice. */
  lemma RestoreSoftFollows(db: Db, k: Key, edits: Cols, user: UserId, tx: Txid)
    requires Consistent(db) && Owned(db, k, user) && !IsLive(db.rows[k]) && OnlyWritable(k.t, edits)
    ensures var restored := UpdateRow(db, k, db.rows[k].cols[DeletedAt := Null], tx);
            && Follows(db, restored, tx) && Follows(db, Recompute(restored, Ref(k.id), user, false, tx), tx)
            && var w := WriteRecord(restored, k, FindOwned(restored, k, user), edits, user, tx);
            w.Some? ==> Follows(db, w.value, tx) && Follows(db, Recompute(w.value, Ref(k.id), user, false, tx), tx)
  {
    hide Consistent, Recompute, WriteRecord, OnlyWritable, UpdateRow, IsLive, Follows, RowOk;
    var cols := db.rows[k].cols[DeletedAt := Null];
    RestoredColumns(db, k);
    RowIsOk(db, k) by { ConsistentParts(db); }
    UpdateKeeps(db, k, cols, tx);
    UpdateFollows(db, k, cols, tx);
    var restored := UpdateRow(db, k, cols, tx);
    WriteThenRecompute(db, restored, Ref(k.id), user, false, tx);
    if WriteRecord(restored, k, FindOwned(restored, k, user), edits, user, tx).Some? {
      UpdatedRows(db, restored, k, cols);
      WriteKeeps(restored, k, edits, user, tx);
      WriteFollows(restored, k, edits, user, tx);
      var w := WriteRecord(restored, k, FindOwned(restored, k, user), edits, user, tx).value;
      FollowsTransitive(db, restored, w, tx);
      WriteThenRecompute(db, w, Ref(k.id), user, false, tx);
    }
  }

  /** The restored row: its tombstone is gone, and it is with the owner the tombstone named. */
  lemma RestoreItemFollows(db: Db, k: Key, state: Cols, edits: Cols, user: UserId, tx: Txid)
    requires Consistent(db) && k.t == Item && OnlyWritable(Item, state) && OnlyWritable(Item, edits)
    requires k in db.tombstones && db.tombstones[k].user == user
    requires RestoreItem(db, k, state, edits, user, tx).Some?
    ensures Follows(db, RestoreItem(db, k, state, edits, user, tx).value, tx)
  {
    hide Consistent, Recompute, OnlyWritable, LineOf, InvoiceTotals.LineTotal, OwnedInvoiceRow, IsProtectedInvoice, Follows, WriteRecord;
    var parent := Col(state, InvoiceId);
    var merged := (state + edits)[InvoiceId := parent];
    var v := Num(InvoiceTotals.LineTotal(LineOf(merged)));
    var data := merged[LineTotal := v];
    var u := DropTombstones(db, {k});
    UntombKeeps(db, k);
    RestoredWritable(state, edits, v);
    NewRow(u, k, data, user, tx);
    WriteKeeps(u, k, data, user, tx);
    var w := WriteRecord(u, k, None, data, user, tx).value;
    BackWithOwner(db, k, data, user, tx);
    WriteThenRecompute(db, w, parent, user, false, tx);
  }

  lemma BackWithOwner(db: Db, k: Key, data: Cols, user: UserId, tx: Txid)
    requires Consistent(db) && k.t == Item && k in db.tombstones && db.tombstones[k].user == user && k !in db.rows
    requires WriteRecord(DropTombstones(db, {k}), k, None, data, user, tx).Some? && OnlyWritable(Item, data)
    ensures Follows(db, WriteRecord(DropTombstones(db, {k}), k, None, data, user, tx).value, tx)
  {
    hide HistoriesOk, TombstonesOk, ItemsOk, IdsOk, OnlyWritable, IsLive, ColsAccepted;
    var u := DropTombstones(db, {k});
    var cols := NewColumns(Item, data, user);
    UntombKeeps(db, k);
    NewLineInvoice(data, user);
    NewLineIsLive(data, user);
    InsertStamps(u, k, cols, tx);
    StampedSame(db, u, tx);
    hide Stamped, Required, Defaults;
    StampedTransitive(db, u, InsertRow(u, k, cols, tx), tx);
    forall x, j | Belongs(db, x, j) ensures Belongs(InsertRow(u, k, cols, tx), x, j) {
      if j == k { RestoredBelongs(db, k, cols, user, tx); } else { OtherBelongs(db, k, cols, tx, x, j); }
    }
    BackJoins(db, k, data, user, tx);
  }

  lemma BackJoins(db: Db, k: Key, data: Cols, user: UserId, tx: Txid)
    requires Consistent(db) && k.t == Item && k !in db.rows
    requires WriteRecord(DropTombstones(db, {k}), k, None, data, user, tx).Some? && OnlyWritable(Item, data)
    requires Kept(db, InsertRow(DropTombstones(db, {k}), k, NewColumns(Item, data, user), tx))
    ensures Joins(db, InsertRow(DropTombstones(db, {k}), k, NewColumns(Item, data, user), tx))
  {
    hide Consistent, OnlyWritable, Belongs, IsSomebodys, NewColumns, Kept, ActiveInvoice;
    var u, d := DropTombstones(db, {k}), InsertRow(DropTombstones(db, {k}), k, NewColumns(Item, data, user), tx);
    UntombKeeps(db, k);
    NewRow(u, k, data, user, tx);
    WriteKeeps(u, k, data, user, tx);
    NewLineInvoice(data, user);
    assert ActiveInvoice(db, data[InvoiceId], user) by { SameActive(db, u, data[InvoiceId], user); }
    ActiveIsSomebodys(db, data[InvoiceId], user);
    StaysSomebodys(db, d, data[InvoiceId]);
  }

  lemma SameActive(a: Db, b: Db, v: Value, user: UserId)
    requires a.rows == b.rows
    ensures ActiveInvoice(a, v, user) == ActiveInvoice(b, v, user)
  {
  }

  lemma NewLineIsLive(data: Cols, user: UserId)
    requires OnlyWritable(Item, data)
    ensures Col(NewColumns(Item, data, user), DeletedAt) == Null
  {
    NotServerColumn(Item, data);
  }

  lemma RestoredBelongs(db: Db, k: Key, cols: Cols, user: UserId, tx: Txid)
    requires k.t == Item && k !in db.rows && Col(cols, DeletedAt) == Null && Col(cols, InvoiceId).Ref?
    requires OwnedInvoiceRow(db, Col(cols, InvoiceId).id, user)
    ensures Belongs(InsertRow(DropTombstones(db, {k}), k, cols, tx), user, k)
  {
  }

  lemma OtherBelongs(db: Db, k: Key, cols: Cols, tx: Txid, x: UserId, j: Key)
    requires k !in db.rows && j != k && Belongs(db, x, j)
    ensures Belongs(InsertRow(DropTombstones(db, {k}), k, cols, tx), x, j)
  {
  }

  lemma TouchFollows(db: Db, k: Key, tx: Txid)
    ensures Follows(db, TouchForDelivery(db, k, tx), tx)
  {
    FollowsSame(db, db, tx);
    var d := TouchForDelivery(db, k, tx);
    if k in db.rows {
      KeptByColumns(db, d);
      hide Stamped, Kept, IsLive, IsItemOf;
      assert OneWritten(db, d, k, tx) by { LiveByColumns(db.rows[k], d.rows[k]); }
      OneWrittenStamps(db, d, k, tx);
    }
  }

  lemma ResolveFollows(db: Db, user: UserId, id: Id, action: Action, expected: Option<nat>, tx: Txid)
    requires Consistent(db) && Resolve(db, user, id, action, expected, tx).Some?
    ensures Follows(db, Resolve(db, user, id, action, expected, tx).value, tx)
  {
    hide Consistent, ApplyDevice, RestoreRecord, TouchForDelivery, Follows;
    var conflict := db.conflicts[id];
    var acted := Act(db, conflict, user, action, expected, tx).value;
    FollowsSame(db, db, tx);
    if action == ApplyClient { ApplyFollows(db, conflict, user, expected.value, tx); }
    else if action == Restore { RestoreFollows(db, conflict, user, expected.value, tx); }
    var touched := TouchForDelivery(acted, conflict.key, tx);
    TouchFollows(acted, conflict.key, tx);
    FollowsTransitive(db, acted, touched, tx);
    var d := Resolve(db, user, id, action, expected, tx).value;
    FollowsSame(touched, d, tx);
    FollowsTransitive(db, touched, d, tx);
  }

  lemma ServerWriteFollows(db: Db, k: Key, data: Cols, tx: Txid)
    requires Consistent(db) && ServerMayWrite(db, k, data)
    ensures Follows(db, UpdateRow(db, k, db.rows[k].cols + data, tx), tx)
  {
    hide RowOk, OnlyWritable, ColsAccepted, HistoriesOk, TombstonesOk, ItemsOk, IdsOk, UpdateRow, Follows;
    RowIsOk(db, k);
    ColumnsAfterWrite(k.t, db.rows[k].cols, data);
    KeepsOwner(k.t, db.rows[k].cols, data);
    StaysPut(db, k, data);
    UpdateFollows(db, k, db.rows[k].cols + data, tx);
  }

  lemma StaysPut(db: Db, k: Key, data: Cols)
    requires Consistent(db) && k in db.rows && InvoiceId !in data
    ensures SameOwner(db, k, db.rows[k].cols + data)
  {
    hide HistoriesOk, TombstonesOk, IdsOk;
  }

  /** Every step of the system, whatever it does, stamps what it changes with its transaction; and
    * every step but dropping tombstones leaves records with their owners.
    */
  lemma NextFollows(db: Db, step: Step, tx: Txid)
    requires Consistent(db)
    ensures Stamped(db, Next(db, step, tx), tx)
    ensures !step.PruneTombstones? ==> Kept(db, Next(db, step, tx)) && Joins(db, Next(db, step, tx))
  {
    if step.PruneTombstones? {
      StampedSame(db, Next(db, step, tx), tx);
    } else {
      StepFollows(db, step, tx);
      FollowsBoth(db, Next(db, step, tx), tx);
    }
  }

  lemma FollowsBoth(a: Db, b: Db, tx: Txid)
    requires Follows(a, b, tx)
    ensures Stamped(a, b, tx) && Kept(a, b) && Joins(a, b)
  {
  }

  lemma StepFollows(db: Db, step: Step, tx: Txid)
    requires Consistent(db) && !step.PruneTombstones?
    ensures Follows(db, Next(db, step, tx), tx)
  {
    hide HistoriesOk, TombstonesOk, ItemsOk, Push, Resolve, WriteRecord, UpdateRow, DeleteRecord, ServerMayWrite, IsLive, OnlyWritable, Follows;
    FollowsSame(db, db, tx);
    match step
    case PushStep(user, change, protocol, fault) => PushFollows(db, user, change, protocol, fault, tx);
    case ResolveStep(user, id, action, expected) =>
      if Resolve(db, user, id, action, expected, tx).Some? { ResolveFollows(db, user, id, action, expected, tx); }
    case ServerInsert(k, user, data) =>
      if k !in db.tombstones && k !in db.versions && OnlyWritable(k.t, data) { WriteNewFollows(db, k, user, data, tx); }
    case ServerUpdate(k, data) => if ServerMayWrite(db, k, data) { ServerWriteFollows(db, k, data, tx); }
    case ServerSoftDelete(k) => if k in db.rows { DeleteFollows(db, k, tx); }
    case ServerDeleteItem(k) => if k in db.rows { DeleteFollows(db, k, tx); }
    case PruneHistory(_) => FollowsSame(db, Next(db, step, tx), tx);
    case PruneConflicts(_) => FollowsSame(db, Next(db, step, tx), tx);
  }

  lemma WriteNewFollows(db: Db, k: Key, user: UserId, data: Cols, tx: Txid)
    requires Consistent(db) && k !in db.versions && k !in db.tombstones && OnlyWritable(k.t, data)
    ensures var w := WriteRecord(db, k, None, data, user, tx); w.Some? ==> Follows(db, w.value, tx)
  {
    hide HistoriesOk, TombstonesOk, ItemsOk, WriteRecord, OnlyWritable, Follows;
    assert FindOwned(db, k, user) == None;
    if WriteRecord(db, k, None, data, user, tx).Some? { WriteFollows(db, k, data, user, tx); }
  }
}
