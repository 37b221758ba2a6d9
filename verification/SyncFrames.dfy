/** What a push and a resolution leave alone. */
module SyncFrames {
  import opened Basics
  import opened SyncModel
  import opened SyncPush
  import opened SyncConflicts
  import opened SyncInvariant
  import opened SyncResolution
  import opened SyncProtection
  import opened SyncTotals
  import opened SyncDeletion
  import opened SyncOnce
  import opened SyncApplied
  import opened SyncRestored
  import opened SyncDeviceVersion
  import InvoiceTotals

  // ---- a push ----

  ghost predicate OnlyTombstone(a: Db, b: Db, k: Key) {
    forall j :: j != k ==> (j in a.tombstones <==> j in b.tombstones) && (j in a.tombstones && j in b.tombstones ==> a.tombstones[j] == b.tombstones[j])
  }

  lemma UpdatesTombstone(db: Db, k: Key, cols: Cols, tx: Txid)
    requires k in db.rows
    ensures OnlyTombstone(db, UpdateRow(db, k, cols, tx), k)
  {
    hide Diff, TouchItems, VersionsOf, UserOf;
    var b := BumpRevision(db, k, cols, tx);
    assert b.tombstones == db.tombstones;
  }

  lemma PerformsTombstone(db: Db, user: UserId, c: Change, k: Key, protocol: nat, tx: Txid)
    ensures var r := Perform(db, user, k, Decide(db, user, c, k, protocol), tx); r.Done? ==> OnlyTombstone(db, r.db, k)
  {
    hide UpdateRow, InsertRow, ReferencesOk, ColsAccepted, NewColumns, Required, IsLive, Decide, UserOf;
    var d := Decide(db, user, c, k, protocol);
    DecideLive(db, user, c, k, protocol);
    match d
    case Write(fields, _, _) =>
      InsertsTombstone(db, k, NewColumns(k.t, fields, user), tx);
      if k in db.rows { UpdatesTombstone(db, k, db.rows[k].cols + fields, tx); }
    case Remove(recoverable) =>
      var kept := if recoverable.Some? then AddConflict(db, recoverable.value) else db;
      if k.t != Item { UpdatesTombstone(kept, k, db.rows[k].cols[DeletedAt := At(tx)], tx); }
    case _ =>
  }

  lemma InsertsTombstone(db: Db, k: Key, cols: Cols, tx: Txid)
    ensures InsertRow(db, k, cols, tx).tombstones == db.tombstones
  {
  }

  /** A push changes the record it is about, that one's tombstone, and the row of its own change: nothing of any
    * other record, of a conflict there is, or of another change.
    */
  lemma PushLeavesOthers(db: Db, user: UserId, c: Change, protocol: nat, fault: Fault, tx: Txid, u: UserId, id: Id)
    requires Consistent(db)
    ensures var d := Push(db, user, c, protocol, fault, tx).db;
            && (c.id == None ==> d == db)
            && (c.id.Some? ==> OnlyRow(db.rows, d.rows, KeyOf(c)) && OnlyTombstone(db, d, KeyOf(c)))
            && (forall i :: i in db.conflicts ==> i in d.conflicts && d.conflicts[i] == db.conflicts[i])
            && (!(c.changeId == Some(id) && user == u) && (u, id) in db.changes ==>
                  (u, id) in d.changes && d.changes[(u, id)] == db.changes[(u, id)])
  {
    hide Push, Perform, Decide, Consistent, SameTables;
    PushEffect(db, user, c, protocol, fault, tx);
    PushFilesOne(db, user, c, protocol, fault, tx);
    if !(c.changeId == Some(id) && user == u) && (u, id) in db.changes { PushOwnRow(db, user, c, protocol, fault, tx, u, id); }
    if c.id.Some? {
      var r, k := WithRecordedChange(db, user, c), KeyOf(c);
      PerformOnly(r, user, c, k, protocol, tx);
      PerformsTombstone(r, user, c, k, protocol, tx);
      var d := Push(db, user, c, protocol, fault, tx).db;
      if SameTables(db, d) { SameRecordsOf(db, d); } else {
        var p := Performed(db, user, c, protocol, tx);
        SameRecordsOf(db, r);
        SameRecordsOf(p.db, d);
      }
    } else {
      NothingWithoutId(db, user, c, protocol, fault, tx);
    }
  }

  lemma SameRecordsOf(a: Db, b: Db)
    requires SameTables(a, b)
    ensures a.rows == b.rows && a.tombstones == b.tombstones
  {
  }

  lemma NothingWithoutId(db: Db, user: UserId, c: Change, protocol: nat, fault: Fault, tx: Txid)
    requires c.id == None
    ensures Push(db, user, c, protocol, fault, tx).db == db
  {
    hide ProcessChange;
  }

  lemma PushFilesOne(db: Db, user: UserId, c: Change, protocol: nat, fault: Fault, tx: Txid)
    requires Consistent(db)
    ensures var d := Push(db, user, c, protocol, fault, tx).db;
            forall i :: i in db.conflicts ==> i in d.conflicts && d.conflicts[i] == db.conflicts[i]
  {
    hide Push, HistoriesOk, TombstonesOk, ItemsOk;
    PushFiles(db, user, c, protocol, fault, tx);
  }

  // ---- a resolution ----

  /** Recomputing an invoice changes its derived amounts and no other column of any record. */
  lemma RecomputesOnly(db: Db, invoice: Value, user: UserId, allowEmpty: bool, tx: Txid, j: Key, f: Field)
    requires Consistent(db) && j in db.rows && (f !in Derived(Invoice) || !(j.t == Invoice && invoice == Ref(j.id)))
    ensures var d := Recompute(db, invoice, user, allowEmpty, tx); j in d.rows && Col(d.rows[j].cols, f) == Col(db.rows[j].cols, f)
  {
    hide Consistent, Recompute;
    RecomputeOthers(db, invoice, user, allowEmpty, tx);
    if j.t == Invoice && invoice == Ref(j.id) { RecomputeOwnColumns(db, j, user, allowEmpty, tx, f); }
  }

  /** The invoice is one whose line is resolved: the one the line is in now, or was in. */
  predicate IsInvoiceOf(a: Db, b: Db, k: Key, j: Key) {
    && k.t == Item && j.t == Invoice
    && ((k in b.rows && Col(b.rows[k].cols, InvoiceId) == Ref(j.id)) || (k in a.rows && Col(a.rows[k].cols, InvoiceId) == Ref(j.id)))
  }

  lemma AppliesToOne(db: Db, conflict: ConflictRow, user: UserId, expected: nat, tx: Txid, j: Key, f: Field)
    requires Consistent(db) && ApplyDevice(db, conflict, user, expected, tx).Some? && j in db.rows && j != conflict.key
    requires f !in Derived(Invoice) || !IsInvoiceOf(db, ApplyDevice(db, conflict, user, expected, tx).value, conflict.key, j)
    ensures var d := ApplyDevice(db, conflict, user, expected, tx).value; j in d.rows && Col(d.rows[j].cols, f) == Col(db.rows[j].cols, f)
  {
    hide Consistent, Recompute, WriteRecord, OnlyWritable, EditableFields, IsProtected, LineOf, InvoiceTotals.LineTotal, TotalsMatch, ActiveInvoice, Derived, RowOk;
    var k := conflict.key;
    var record := FindOwned(db, k, user).value;
    var sent := EditableFields(k.t, conflict.clientFields);
    EditableIsWritable(k.t, conflict.clientFields);
    var v := Num(InvoiceTotals.LineTotal(LineOf(record.cols + sent)));
    if k.t == Item {
      LineTotalWritable(k.t, sent, v);
      ApplyLine(db, conflict, user, expected, tx);
      SameInvoiceSent(db.rows[k].cols, sent, v);
    }
    var data := if k.t == Item then sent[LineTotal := v] else sent;
    WriteKeeps(db, k, data, user, tx);
    WrittenUpdate(db, k, data, user, tx);
    var written := WriteRecord(db, k, FindOwned(db, k, user), data, user, tx).value;
    var joined, left := InvoiceTouched(k, record.cols + data), InvoiceTouched(k, record.cols);
    RecomputeKeeps(written, joined, user, false, tx);
    RecomputesOnly(written, joined, user, false, tx, j, f);
    if k.t == Item && left != Null && left != joined {
      RecomputesOnly(Recompute(written, joined, user, false, tx), left, user, true, tx, j, f);
    }
  }

  lemma SameInvoiceSent(cols: Cols, sent: Cols, v: Value)
    ensures Col(cols + sent[LineTotal := v], InvoiceId) == Col(cols + sent, InvoiceId)
  {
  }

  lemma RestoresOne(db: Db, conflict: ConflictRow, user: UserId, expected: nat, tx: Txid, j: Key, f: Field)
    requires Consistent(db) && RestoreRecord(db, conflict, user, expected, tx).Some? && j in db.rows && j != conflict.key
    requires f !in Derived(Invoice) || !IsInvoiceOf(db, RestoreRecord(db, conflict, user, expected, tx).value, conflict.key, j)
    ensures var d := RestoreRecord(db, conflict, user, expected, tx).value; j in d.rows && Col(d.rows[j].cols, f) == Col(db.rows[j].cols, f)
  {
    hide Consistent, RestoreRecord, EditableFields, OnlyWritable, Derived, RestoreItem, TotalsMatch, ActiveInvoice, IsProtectedInvoice;
    var k := conflict.key;
    if k.t == Item {
      RestoreLineWasGone(db, conflict, user, expected, tx);
      RestoreLine(db, conflict, user, expected, tx);
      RestoresLine(db, conflict, user, expected, tx);
      EditsAreWritable(Item, conflict);
      EditableIsWritable(Item, db.tombstones[k].lastState.value);
      ReturnsOne(db, k, EditableFields(Item, db.tombstones[k].lastState.value), LaterEdit(conflict), user, tx, j, f);
    } else {
      EditsAreWritable(k.t, conflict);
      RestoreIs(db, conflict, user, expected, tx);
      RevivesOne(db, k, LaterEdit(conflict), user, tx, j, f);
    }
  }

  lemma ReturnsOne(db: Db, k: Key, state: Cols, edits: Cols, user: UserId, tx: Txid, j: Key, f: Field)
    requires Consistent(db) && k.t == Item && OnlyWritable(Item, state) && OnlyWritable(Item, edits)
    requires RestoreItem(db, k, state, edits, user, tx).Some? && j in db.rows && j != k
    requires f !in Derived(Invoice) || !IsInvoiceOf(db, RestoreItem(db, k, state, edits, user, tx).value, k, j)
    ensures var d := RestoreItem(db, k, state, edits, user, tx).value; j in d.rows && Col(d.rows[j].cols, f) == Col(db.rows[j].cols, f)
  {
    hide Consistent, Recompute, TotalsMatch, WriteRecord, OnlyWritable, LineOf, InvoiceTotals.LineTotal, IsProtectedInvoice, NewColumns, OwnedInvoiceRow;
    hide RowOk, ActiveInvoice, IsLive, FindOwned, Owned, Derived;
    RestoreItemTotals(db, k, state, edits, user, tx);
    var line, u := (state + edits)[InvoiceId := Col(state, InvoiceId)], DropTombstones(db, {k});
    var v := Num(InvoiceTotals.LineTotal(LineOf(line)));
    var data := line[LineTotal := v];
    UntombKeeps(db, k);
    RestoredWritable(state, edits, v);
    NewRow(u, k, data, user, tx);
    WriteKeeps(u, k, data, user, tx);
    NewIsWritten(u, k, data, user, tx);
    RecomputesOnly(WriteRecord(u, k, None, data, user, tx).value, Col(state, InvoiceId), user, false, tx, j, f);
  }

  lemma RevivesOne(db: Db, k: Key, edits: Cols, user: UserId, tx: Txid, j: Key, f: Field)
    requires Consistent(db) && k.t != Item && Owned(db, k, user) && !IsLive(db.rows[k]) && OnlyWritable(k.t, edits) && j in db.rows && j != k
    requires var restored := UpdateRow(db, k, db.rows[k].cols[DeletedAt := Null], tx);
             edits != map[] ==> WriteRecord(restored, k, FindOwned(restored, k, user), edits, user, tx).Some?
    ensures var restored := UpdateRow(db, k, db.rows[k].cols[DeletedAt := Null], tx);
            var written := if edits == map[] then restored
                           else WriteRecord(restored, k, FindOwned(restored, k, user), edits, user, tx).value;
            var d := if k.t == Invoice then Recompute(written, Ref(k.id), user, false, tx) else written;
            j in d.rows && Col(d.rows[j].cols, f) == Col(db.rows[j].cols, f)
  {
    hide Consistent, Recompute, WriteRecord, OnlyWritable, UpdateRow, IsLive, Derived, RowOk, Owned;
    OwnedIsStored(db, k, user);
    SoftRestored(db, k, edits, user, tx);
    RestoredColumns(db, k);
    var cols := db.rows[k].cols[DeletedAt := Null];
    UpdateKeeps(db, k, cols, tx);
    var restored := UpdateRow(db, k, cols, tx);
    if edits != map[] {
      StaysOwned(db, restored, k, cols, user);
      WriteKeeps(restored, k, edits, user, tx);
      WrittenUpdate(restored, k, edits, user, tx);
    }
    var written := if edits == map[] then restored else WriteRecord(restored, k, FindOwned(restored, k, user), edits, user, tx).value;
    if k.t == Invoice { RecomputesOnly(written, Ref(k.id), user, false, tx, j, f); }
  }

  /** A resolution changes no column of another record, but the amounts of the invoices its line is in, or was in. */
  lemma ResolutionLeavesOthers(db: Db, user: UserId, id: Id, action: Action, expected: Option<nat>, tx: Txid, j: Key, f: Field)
    requires Consistent(db) && Resolve(db, user, id, action, expected, tx).Some? && j in db.rows && j != db.conflicts[id].key
    requires f !in Derived(Invoice) || !IsInvoiceOf(db, Resolve(db, user, id, action, expected, tx).value, db.conflicts[id].key, j)
    ensures var d := Resolve(db, user, id, action, expected, tx).value; j in d.rows && Col(d.rows[j].cols, f) == Col(db.rows[j].cols, f)
  {
    hide Consistent, ApplyDevice, RestoreRecord, Derived;
    var conflict := db.conflicts[id];
    var acted := Act(db, conflict, user, action, expected, tx).value;
    TouchedRows(acted, conflict.key, tx);
    if action == ApplyClient { AppliesToOne(db, conflict, user, expected.value, tx, j, f); }
    else if action == Restore { RestoresOne(db, conflict, user, expected.value, tx, j, f); }
  }

  // ---- an invoice without lines ----

  /** Recomputing an invoice without lines leaves it as it is, unless it has just been emptied. */
  lemma NothingToSum(w: Db, k: Key, user: UserId, tx: Txid)
    requires Consistent(w) && k.t == Invoice && k in w.rows
    requires LinesOf(Recompute(w, Ref(k.id), user, false, tx).rows, k.id) == []
    ensures Recompute(w, Ref(k.id), user, false, tx) == w
  {
    RecomputeOthers(w, Ref(k.id), user, false, tx);
    LinesFrame(w.rows, Recompute(w, Ref(k.id), user, false, tx).rows, k.id);
    hide LinesOf, UpdateRow, TotalColumns, InvoiceTotals.TotalsOf, Consistent, ActiveInvoice;
  }

  lemma NoAmountKept(fields: map<Field, Value>, f: Field)
    requires f in Derived(Invoice)
    ensures f !in EditableFields(Invoice, fields)
  {
  }

  /** A resolution of an invoice that has no lines keeps the amounts it has. */
  lemma AmountsWithoutLines(db: Db, user: UserId, id: Id, action: Action, expected: Option<nat>, tx: Txid, f: Field)
    requires Consistent(db) && Resolve(db, user, id, action, expected, tx).Some? && db.conflicts[id].key in db.rows
    requires var k := db.conflicts[id].key; k.t == Invoice && LinesOf(Resolve(db, user, id, action, expected, tx).value.rows, k.id) == []
    requires f in Derived(Invoice)
    ensures var d, k := Resolve(db, user, id, action, expected, tx).value, db.conflicts[id].key;
            k in d.rows && Col(d.rows[k].cols, f) == Col(db.rows[k].cols, f)
  {
    hide Consistent, ApplyDevice, RestoreRecord, LinesOf, Derived, EditableFields;
    var conflict, acted := db.conflicts[id], Act(db, db.conflicts[id], user, action, expected, tx).value;
    TouchedMatch(acted, conflict.key, tx, conflict.key.id);
    TouchedRows(acted, conflict.key, tx);
    NoAmountKept(conflict.clientFields, f);
    NotDerived();
    if action == ApplyClient { AppliedWithoutLines(db, conflict, user, expected.value, tx, f); }
    else if action == Restore { RestoredWithoutLines(db, conflict, user, expected.value, tx, f); }
  }

  lemma AppliedWithoutLines(db: Db, conflict: ConflictRow, user: UserId, expected: nat, tx: Txid, f: Field)
    requires Consistent(db) && conflict.key.t == Invoice && ApplyDevice(db, conflict, user, expected, tx).Some?
    requires LinesOf(ApplyDevice(db, conflict, user, expected, tx).value.rows, conflict.key.id) == []
    requires f !in EditableFields(Invoice, conflict.clientFields)
    ensures var d, k := ApplyDevice(db, conflict, user, expected, tx).value, conflict.key;
            k in db.rows && k in d.rows && Col(d.rows[k].cols, f) == Col(db.rows[k].cols, f)
  {
    hide Consistent, Recompute, WriteRecord, OnlyWritable, EditableFields, IsProtected, RowOk, LinesOf, LineOf, InvoiceTotals.LineTotal;
    var k := conflict.key;
    var sent := EditableFields(k.t, conflict.clientFields);
    EditableIsWritable(k.t, conflict.clientFields);
    WriteKeeps(db, k, sent, user, tx);
    WrittenUpdate(db, k, sent, user, tx);
    NothingToSum(WriteRecord(db, k, FindOwned(db, k, user), sent, user, tx).value, k, user, tx);
  }

  lemma RestoredWithoutLines(db: Db, conflict: ConflictRow, user: UserId, expected: nat, tx: Txid, f: Field)
    requires Consistent(db) && conflict.key.t == Invoice && RestoreRecord(db, conflict, user, expected, tx).Some?
    requires LinesOf(RestoreRecord(db, conflict, user, expected, tx).value.rows, conflict.key.id) == []
    requires f !in EditableFields(Invoice, conflict.clientFields) && f != DeletedAt
    ensures var d, k := RestoreRecord(db, conflict, user, expected, tx).value, conflict.key;
            k in db.rows && k in d.rows && Col(d.rows[k].cols, f) == Col(db.rows[k].cols, f)
  {
    hide Consistent, Recompute, WriteRecord, OnlyWritable, EditableFields, UpdateRow, IsLive, RowOk, LinesOf, Owned, RestoreRecord;
    var k, edits := conflict.key, LaterEdit(conflict);
    EditsAreWritable(k.t, conflict);
    RestoreIs(db, conflict, user, expected, tx);
    OwnedIsStored(db, k, user);
    SoftRestored(db, k, edits, user, tx);
    var restored := UpdateRow(db, k, db.rows[k].cols[DeletedAt := Null], tx);
    var written := if edits == map[] then restored else WriteRecord(restored, k, FindOwned(restored, k, user), edits, user, tx).value;
    NothingToSum(written, k, user, tx);
  }
}
